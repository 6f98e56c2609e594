/**
  The answers to CONNECT, told from the history of a run: a client id is refused while it
  is taken, and the session-present flag says what the client last asked for.
 */
module SessionHistory {
  import opened Prelude
  import opened SessionOwnership

  /** The event is a CONNECT that is accepted: its protocol level is right and its client id is not taken. */
  ghost predicate Took(before: seq<Event>, ev: Event)
    decreases |before|, 1
  {
    ev.Connecting? && ev.packet.levelOk && !TakenBy(before, ev.packet.clientId)
  }

  /** The client id a connection is bound to: that of its first accepted CONNECT with a context, until it closes. */
  ghost function BoundAt(events: seq<Event>, conn: nat): Option<string>
    decreases |events|, 0
  {
    if events == [] then None
    else
      var before, ev := events[..|events| - 1], events[|events| - 1];
      var bound := BoundAt(before, conn);
      if ev.conn != conn then bound
      else if ev.Closed? then None
      else if Took(before, ev) && ev.attached && bound.None? then Some(ev.packet.clientId)
      else bound
  }

  /** A client id is taken by an accepted CONNECT, and given back when a connection bound to it closes unshared. */
  ghost predicate TakenBy(events: seq<Event>, id: string)
    decreases |events|, 0
  {
    && events != []
    && var before, ev := events[..|events| - 1], events[|events| - 1];
       || (Took(before, ev) && ev.packet.clientId == id)
       || (TakenBy(before, id) && !(ev == Closed(ev.conn, false) && BoundAt(before, ev.conn) == Some(id)))
  }

  /** Whether the client's last accepted CONNECT asked for a clean session. */
  ghost function LastClean(events: seq<Event>, id: string): Option<bool> {
    if events == [] then None
    else
      var before, ev := events[..|events| - 1], events[|events| - 1];
      if Took(before, ev) && ev.packet.clientId == id then Some(ev.packet.clean) else LastClean(before, id)
  }

  lemma {:induction false} RunSnoc(s: Server, events: seq<Event>)
    requires events != [] && IsRun(s, events)
    ensures var before, ev := events[..|events| - 1], events[|events| - 1];
            && IsRun(s, before) && Possible(After(s, before), ev)
            && After(s, events) == Step(After(s, before), ev)
    decreases |events|
  {
    var before := events[..|events| - 1];
    if |events| == 1 {
      assert events[1..] == [] && before == [];
    } else {
      RunSnoc(Step(s, events[0]), events[1..]);
      assert events[1..][..|events| - 2] == before[1..];
    }
  }

  lemma {:induction false} BoundHistory(events: seq<Event>, conn: nat)
    requires IsRun(NOBODY, events)
    ensures var s := After(NOBODY, events);
            BoundAt(events, conn) == if conn in s.bound then Some(s.bound[conn]) else None
    decreases |events|
  {
    if events != [] {
      var before, ev := events[..|events| - 1], events[|events| - 1];
      RunSnoc(NOBODY, events);
      BoundHistory(before, conn);
      if ev.Connecting? { SessionFromHistory(before, ev.packet.clientId); }
    }
  }

  /** The stored session of a client, told from the history. */
  lemma {:induction false} SessionFromHistory(events: seq<Event>, id: string)
    requires IsRun(NOBODY, events)
    ensures var s := After(NOBODY, events);
            && (TakenBy(events, id) <==> id in s.sessions && s.sessions[id].accepted)
            && (id in s.sessions ==> LastClean(events, id) == Some(s.sessions[id].clean))
            && (id in s.sessions && s.sessions[id].clean ==> s.sessions[id].accepted)
            && (id !in s.sessions ==> LastClean(events, id) != Some(false))
    decreases |events|
  {
    if events != [] {
      var before, ev := events[..|events| - 1], events[|events| - 1];
      RunSnoc(NOBODY, events);
      RunKeepsValid(NOBODY, before);
      SessionFromHistory(before, id);
      BoundHistory(before, ev.conn);
      if ev.Connecting? { SessionFromHistory(before, ev.packet.clientId); }
      var s := After(NOBODY, before);
      if ev.Closed? && ev.conn in s.bound { assert Owns(s, ev.conn); }
    }
  }

  /**
    In every run a CONNECT is refused exactly while its client id is taken; and otherwise
    the session-present flag is set exactly if neither this CONNECT nor the client's last
    accepted one asks for a clean session.
   */
  lemma AnswerFromHistory(events: seq<Event>, q: Connect)
    requires IsRun(NOBODY, events)
    ensures var present := !q.clean && LastClean(events, q.clientId) == Some(false);
            Accepts(After(NOBODY, events), q) ==
              if TakenBy(events, q.clientId) then Err(AlreadyExists)
              else if q.levelOk then Ok(present)
              else Err(BadProtocol(present))
  {
    SessionFromHistory(events, q.clientId);
  }

  /** A client that closes and comes back finds its session exactly if neither side asked for a clean one. */
  lemma PresentAfterClose(s: Server, conn: nat, p: Connect, q: Connect)
    requires Valid(s) && conn !in s.bound && Accepts(s, p).Ok? && q.clientId == p.clientId && q.levelOk
    ensures Accepts(Close(Accept(s, conn, p, true), conn, false), q) == Ok(!p.clean && !q.clean)
  {
  }
}
