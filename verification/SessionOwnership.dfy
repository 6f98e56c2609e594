/**
  Who owns an MQTT client id: connections bind themselves to a client id when they are
  accepted and give it up when they close, and the broker's session table remembers.
 */
module SessionOwnership {
  import opened Prelude

  /** The stored session of a client: the connection that made it, and its two flags. */
  datatype Session = Session(conn: nat, accepted: bool, clean: bool)

  /** Open connections, the client id in each one's context, and the session table. */
  datatype Server = Server(open: set<nat>, bound: map<nat, string>, sessions: map<string, Session>)

  datatype Connect = Connect(clientId: string, clean: bool, levelOk: bool)

  /** A refused protocol level is still acknowledged, with the session-present flag. */
  datatype Refusal = AlreadyExists | BadProtocol(sessionPresent: bool)

  /** The acknowledgement of an accepted CONNECT; a listener may still call the client not authorized. */
  datatype Ack = Ack(sessionPresent: bool, authorized: bool)

  const NOBODY := Server({}, map[], map[])

  // ---- The steps ----

  function Accepts(s: Server, packet: Connect): Result<bool, Refusal> {
    if packet.clientId in s.sessions && s.sessions[packet.clientId].accepted then Err(AlreadyExists)
    else
      var present := !packet.clean && packet.clientId in s.sessions;
      if packet.levelOk then Ok(present) else Err(BadProtocol(present))
  }

  /** `set` on a context that is already set does nothing; `attached` says that there is one to set. */
  function Accept(s: Server, conn: nat, packet: Connect, attached: bool): Server {
    if Accepts(s, packet).Err? then s
    else s.(bound := if attached && conn !in s.bound then s.bound[conn := packet.clientId] else s.bound,
            sessions := s.sessions[packet.clientId := Session(conn, true, packet.clean)])
  }

  /**
    A context that is still shared cannot be taken out, and nothing else happens then. The
    handles that `get` gives out do not raise the count, so this case is one more than occurs.
   */
  function Close(s: Server, conn: nat, shared: bool): Server {
    var s1 := s.(open := s.open - {conn}, bound := s.bound - {conn});
    if shared || conn !in s.bound || s.bound[conn] !in s.sessions then s1
    else
      var id := s.bound[conn];
      if s.sessions[id].clean then s1.(sessions := s.sessions - {id})
      else s1.(sessions := s.sessions[id := s.sessions[id].(accepted := false)])
  }

  class Protocol {
    var open: set<nat>
    var bound: map<nat, string>
    var sessions: map<string, Session>

    ghost function State(): Server
      reads this
    {
      Server(open, bound, sessions)
    }

    constructor ()
      ensures State() == NOBODY
    {
      open, bound, sessions := {}, map[], map[];
    }

    method OpenConnection(conn: nat)
      requires conn !in open
      modifies this`open
      ensures State() == Step(old(State()), Opened(conn))
    {
      open := open + {conn};
    }

    /** A client that the listener does not authorize is told so, and keeps the session it was given. */
    method AcceptConnect(conn: nat, packet: Connect, attached: bool, authorized: bool) returns (r: Result<Ack, Refusal>)
      requires conn in open
      modifies this`bound, this`sessions
      ensures State() == Accept(old(State()), conn, packet, attached)
      ensures match Accepts(old(State()), packet)
              case Ok(present) => r == Ok(Ack(present, authorized))
              case Err(e) => r == Err(e)
    {
      var known := packet.clientId in sessions;
      if known {
        if sessions[packet.clientId].accepted {
          return Err(AlreadyExists);
        }
      }
      var sessionPresent := true;
      if packet.clean {
        sessionPresent := false;
      } else if !packet.clean && !known {
        sessionPresent := false;
      }
      if !packet.levelOk {
        return Err(BadProtocol(sessionPresent));
      }
      if attached {
        if conn !in bound {
          bound := bound[conn := packet.clientId];
        }
      }
      ResetSession(conn, packet);
      r := Ok(Ack(sessionPresent, authorized));
    }

    method ResetSession(conn: nat, packet: Connect)
      modifies this`sessions
      ensures sessions == old(sessions)[packet.clientId := Session(conn, true, packet.clean)]
    {
      sessions := sessions[packet.clientId := Session(conn, true, packet.clean)];
    }

    method CloseProtocol(conn: nat, shared: bool)
      requires conn in open
      modifies this
      ensures State() == Close(old(State()), conn, shared)
    {
      open := open - {conn};
      if conn in bound && !shared {
        var id := bound[conn];
        if id in sessions {
          if sessions[id].clean {
            sessions := sessions - {id};
          } else {
            sessions := sessions[id := sessions[id].(accepted := false)];
          }
        }
      }
      bound := bound - {conn};
    }
  }

  // ---- Runs ----

  datatype Event =
    | Opened(conn: nat)
    | Connecting(conn: nat, packet: Connect, attached: bool)
    | Closed(conn: nat, shared: bool)

  /** Only new connections open, and only open ones connect or close. */
  predicate Possible(s: Server, ev: Event) { ev.Opened? <==> ev.conn !in s.open }

  function Step(s: Server, ev: Event): Server {
    match ev
    case Opened(conn) => s.(open := s.open + {conn})
    case Connecting(conn, packet, attached) => Accept(s, conn, packet, attached)
    case Closed(conn, shared) => Close(s, conn, shared)
  }

  ghost predicate IsRun(s: Server, events: seq<Event>)
    decreases |events|
  {
    events == [] || (Possible(s, events[0]) && IsRun(Step(s, events[0]), events[1..]))
  }

  function After(s: Server, events: seq<Event>): Server
    decreases |events|
  {
    if events == [] then s else After(Step(s, events[0]), events[1..])
  }

  // ---- Ownership ----

  /** A bound connection is open, and its client's stored session is its own and marked accepted. */
  ghost predicate Owns(s: Server, conn: nat)
    requires conn in s.bound
  {
    && conn in s.open && s.bound[conn] in s.sessions
    && s.sessions[s.bound[conn]].accepted && s.sessions[s.bound[conn]].conn == conn
  }

  ghost predicate Valid(s: Server) { forall conn :: conn in s.bound ==> Owns(s, conn) }

  lemma StepKeepsValid(s: Server, ev: Event)
    requires Valid(s) && Possible(s, ev)
    ensures Valid(Step(s, ev))
  {
    var s' := Step(s, ev);
    forall conn | conn in s'.bound ensures Owns(s', conn) {
      if conn in s.bound { assert Owns(s, conn); }
      if ev.Closed? && ev.conn in s.bound { assert Owns(s, ev.conn); }
    }
  }

  lemma {:induction false} RunKeepsValid(s: Server, events: seq<Event>)
    requires Valid(s) && IsRun(s, events)
    ensures Valid(After(s, events))
    decreases |events|
  {
    if events != [] {
      StepKeepsValid(s, events[0]);
      RunKeepsValid(Step(s, events[0]), events[1..]);
    }
  }

  /** At most one open connection holds a client id, and its session is marked accepted meanwhile. */
  lemma OneOwner(events: seq<Event>, a: nat, b: nat)
    requires IsRun(NOBODY, events)
    requires var s := After(NOBODY, events); a in s.bound && b in s.bound && s.bound[a] == s.bound[b]
    ensures var s := After(NOBODY, events);
            a == b && a in s.open && s.bound[a] in s.sessions && s.sessions[s.bound[a]].accepted
  {
    RunKeepsValid(NOBODY, events);
    var s := After(NOBODY, events);
    assert Owns(s, a) && Owns(s, b);
  }

  // ---- Accepted sessions without an owner ----

  ghost predicate Orphan(s: Server, id: string) {
    id in s.sessions && s.sessions[id].accepted && forall conn :: conn in s.bound ==> s.bound[conn] != id
  }

  ghost predicate NoOrphans(s: Server) { forall id :: !Orphan(s, id) }

  /** A step that leaves no accepted session behind: it binds what it accepts, and frees what it closes. */
  predicate Tidy(s: Server, ev: Event) {
    match ev
    case Opened(_) => true
    case Connecting(conn, packet, attached) => Accepts(s, packet).Ok? ==> attached && conn !in s.bound
    case Closed(conn, shared) => shared ==> conn !in s.bound
  }

  /** Every accepted session keeps its owner exactly through tidy steps. */
  lemma OrphansIff(s: Server, ev: Event)
    requires Valid(s) && NoOrphans(s) && Possible(s, ev)
    ensures NoOrphans(Step(s, ev)) <==> Tidy(s, ev)
  {
    var s' := Step(s, ev);
    if Tidy(s, ev) {
      forall id ensures !Orphan(s', id) { TidyStep(s, ev, id); }
    } else {
      var id := if ev.Connecting? then ev.packet.clientId else s.bound[ev.conn];
      UntidyStep(s, ev, id);
    }
  }

  lemma TidyStep(s: Server, ev: Event, id: string)
    requires Valid(s) && NoOrphans(s) && Possible(s, ev) && Tidy(s, ev)
    ensures !Orphan(Step(s, ev), id)
  {
    var s' := Step(s, ev);
    assert !Orphan(s, id);
    if id in s'.sessions && s'.sessions[id].accepted {
      if ev.Connecting? && Accepts(s, ev.packet).Ok? && ev.packet.clientId == id {
        assert s'.bound[ev.conn] == id;
      } else {
        assert id in s.sessions && s.sessions[id].accepted;
        var conn :| conn in s.bound && s.bound[conn] == id;
        assert Owns(s, conn);
        assert conn in s'.bound && s'.bound[conn] == id;
      }
    }
  }

  lemma UntidyStep(s: Server, ev: Event, id: string)
    requires Valid(s) && Possible(s, ev) && !Tidy(s, ev)
    requires id == if ev.Connecting? then ev.packet.clientId else s.bound[ev.conn]
    ensures Orphan(Step(s, ev), id)
  {
    forall conn | conn in s.bound ensures Owns(s, conn) { }
  }

  lemma OrphanStays(s: Server, ev: Event, id: string)
    requires Valid(s) && Orphan(s, id) && Possible(s, ev)
    ensures Orphan(Step(s, ev), id)
  {
    if ev.Closed? && ev.conn in s.bound { assert Owns(s, ev.conn); }
  }

  /** An orphaned client id stays so: no later connection is accepted under it. */
  lemma {:induction false} OrphanForever(s: Server, events: seq<Event>, id: string)
    requires Valid(s) && Orphan(s, id) && IsRun(s, events)
    ensures Orphan(After(s, events), id)
    ensures forall packet: Connect :: packet.clientId == id ==> Accepts(After(s, events), packet) == Err(AlreadyExists)
    decreases |events|
  {
    if events != [] {
      OrphanStays(s, events[0], id);
      StepKeepsValid(s, events[0]);
      OrphanForever(Step(s, events[0]), events[1..], id);
    }
  }

  ghost predicate AllTidy(s: Server, events: seq<Event>)
    decreases |events|
  {
    events == [] || (Tidy(s, events[0]) && AllTidy(Step(s, events[0]), events[1..]))
  }

  /** Over whole runs: every accepted session has an owner at the end exactly when every step was tidy. */
  lemma {:induction false} OrphanFreeIff(s: Server, events: seq<Event>)
    requires Valid(s) && NoOrphans(s) && IsRun(s, events)
    ensures NoOrphans(After(s, events)) <==> AllTidy(s, events)
    decreases |events|
  {
    if events != [] {
      var s', rest := Step(s, events[0]), events[1..];
      OrphansIff(s, events[0]);
      StepKeepsValid(s, events[0]);
      if Tidy(s, events[0]) {
        OrphanFreeIff(s', rest);
      } else {
        var id :| Orphan(s', id);
        OrphanForever(s', rest, id);
        assert Orphan(After(s, events), id);
      }
    }
  }

  /** Two CONNECTs on one connection: the second client id is never freed. */
  lemma SecondConnectOrphans()
    ensures var events := [Opened(0), Connecting(0, Connect("a", false, true), true),
                           Connecting(0, Connect("b", false, true), true), Closed(0, false)];
            IsRun(NOBODY, events) && Orphan(After(NOBODY, events), "b")
  {
    var events := [Opened(0), Connecting(0, Connect("a", false, true), true),
                   Connecting(0, Connect("b", false, true), true), Closed(0, false)];
    var s1 := Step(NOBODY, events[0]);
    var s2 := Step(s1, events[1]);
    var s3 := Step(s2, events[2]);
    assert events[1..][1..][1..] == [events[3]] && events[3..][1..] == [];
    assert "a" != "b" by { assert "a"[0] != "b"[0]; }
    assert Orphan(Step(s3, events[3]), "b");
  }

  /** A client that closes tidily can come back: nothing keeps its id. */
  lemma CloseFreesId(s: Server, conn: nat, packet: Connect)
    requires Valid(s) && conn in s.bound && packet.clientId == s.bound[conn] && packet.levelOk
    ensures var s' := Close(s, conn, false);
            Accepts(s', packet).Ok? && (Accepts(s', packet).value <==> !packet.clean && !s.sessions[s.bound[conn]].clean)
  {
    assert Owns(s, conn);
  }
}
