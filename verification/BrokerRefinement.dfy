/**
  Without patterns the broker is a map from topics to client ids: its caches stay in order
  in every run, and they follow plain insertion and deletion exactly as long as every
  unsubscription comes from the session object that a lone subscriber's cache holds.
 */
module BrokerRefinement {
  import opened Prelude
  import opened SortedSearch
  import opened TopicPaths
  import opened PatternRegistry
  import opened BrokerModel
  import opened BrokerRuns
  import opened BrokerDelivery

  ghost predicate NoPatterns(ops: seq<Op>) {
    forall op :: op in ops && (op.Sub? || op.Unsub?) ==> !Wild(Parse(op.topic))
  }

  // ---- One topic's cache ----

  ghost predicate IsMember(c: Option<SubCache>, s: Session) { c.Some? && s in Members(c.value) }

  ghost predicate HasId(c: Option<SubCache>, id: string) { c.Some? && HasClient(Members(c.value), id) }

  /** A lone subscriber sits in `first` alone, and the members are in strict client order. */
  ghost predicate InOrder(c: Option<SubCache>) {
    c.Some? ==> (c.value.first.Some? ==> c.value.sessions == []) && SortedSessions(Members(c.value))
  }

  /** A lone subscriber is only let go by its own session object. */
  predicate LetsGo(c: Option<SubCache>, s: Session) {
    c.Some? ==> c.value.first.None? || c.value.first.value == s
  }

  function JoinAt(c: Option<SubCache>, s: Session): Option<SubCache> {
    Some(if c.Some? then Join(c.value, s) else SubCache(None, Some(s), []))
  }

  function LeaveAt(c: Option<SubCache>, s: Session): Option<SubCache> {
    if c.None? || Leave(c.value, s).1 then None else Some(Leave(c.value, s).0)
  }

  lemma SingleSorted(s: Session)
    ensures SortedSessions([s])
  {
    assert |ClientIds([s])| == 1;
  }

  lemma JoinInOrder(c: Option<SubCache>, s: Session)
    requires InOrder(c)
    ensures InOrder(JoinAt(c, s))
    ensures forall id :: HasId(JoinAt(c, s), id) <==> HasId(c, id) || id == s.clientId
    ensures forall x :: IsMember(JoinAt(c, s), x) <==> IsMember(c, x) || (x == s && !HasId(c, s.clientId))
    ensures c.Some? ==> (Joins(c.value, s) <==> !HasId(c, s.clientId))
  {
    if c.None? {
      SingleSorted(s);
    } else {
      var list := if c.value.first.Some? then c.value.sessions + [c.value.first.value] else c.value.sessions;
      assert list == Members(c.value);
      EnrollSorted(list, s);
      SearchSorted(ClientIds(list), s.clientId);
      HasClientIff(list, s.clientId);
    }
  }

  /** The exact effect: the client goes if and only if the cache lets the session go. */
  lemma LeaveInOrder(c: Option<SubCache>, s: Session)
    requires InOrder(c)
    ensures InOrder(LeaveAt(c, s))
    ensures forall id :: HasId(LeaveAt(c, s), id) <==> HasId(c, id) && !(id == s.clientId && LetsGo(c, s))
    ensures forall x :: IsMember(LeaveAt(c, s), x) ==> IsMember(c, x) && x != s
  {
    if c.Some? && c.value.first.None? {
      var list, left := c.value.sessions, Withdraw(c.value.sessions, s);
      WithdrawSorted(list, s);
      forall id ensures HasClient(left, id) <==> HasClient(list, id) && id != s.clientId {
        if HasClient(list, id) && id != s.clientId { var x :| x in list && x.clientId == id; }
      }
    } else if c.Some? {
      assert Members(c.value) == [c.value.first.value];
    }
  }

  /** Leaving twice is leaving once. */
  lemma LeaveTwice(c: Option<SubCache>, s: Session)
    requires InOrder(c)
    ensures LeaveAt(LeaveAt(c, s), s) == LeaveAt(c, s)
  {
    if c.Some? && c.value.first.None? {
      var left := Withdraw(c.value.sessions, s);
      WithdrawSorted(c.value.sessions, s);
      SearchSorted(ClientIds(left), s.clientId);
      HasClientIff(left, s.clientId);
    }
  }

  lemma ServeInOrder(c: Option<SubCache>, isNew: bool, retain: Option<Publish>)
    requires InOrder(c)
    ensures var c' := Serve(c, Some([]), isNew, retain);
            InOrder(c') && Members(c'.value) == if c.Some? then Members(c.value) else []
  {
    if c.None? {
      assert ClientIds([]) == [];
    } else if isNew && c.value.first.None? {
      assert c.value.sessions + [] == c.value.sessions;
    } else if isNew {
      assert [] + [c.value.first.value] == [c.value.first.value];
    }
  }

  // ---- The tables ----

  ghost predicate OnRecord(b: Tables, s: Session, t: string) { s in b.topics && t in b.topics[s] }

  /** Caches are in order, and every cached session has the topic on its own record. */
  ghost predicate Orderly(b: Tables) {
    && b.patterns == map[]
    && (forall t :: t in b.subTab ==> !Wild(Parse(t)))
    && (forall s, t :: OnRecord(b, s, t) ==> !Wild(Parse(t)))
    && (forall t :: InOrder(CacheOf(b.subTab, t)))
    && (forall s, t :: IsMember(CacheOf(b.subTab, t), s) ==> OnRecord(b, s, t))
  }

  lemma SubscribeOrderly(b: Tables, s: Session, topic: string)
    requires Orderly(b) && !Wild(Parse(topic))
    ensures var b' := Subscribe(b, s, topic).0;
            && Orderly(b')
            && forall t :: CacheOf(b'.subTab, t) == if t == topic then JoinAt(CacheOf(b.subTab, t), s) else CacheOf(b.subTab, t)
  {
    var b', c := Subscribe(b, s, topic).0, CacheOf(b.subTab, topic);
    assert InOrder(c);
    JoinInOrder(c, s);
    SubscribeRecords(b, s, topic);
    SubscribeAt(b, s, topic);
    forall t ensures InOrder(CacheOf(b'.subTab, t)) { assert InOrder(CacheOf(b.subTab, t)); }
    forall x, t | IsMember(CacheOf(b'.subTab, t), x) ensures OnRecord(b', x, t) {
      if IsMember(CacheOf(b.subTab, t), x) { assert OnRecord(b, x, t); }
    }
  }

  lemma SubscribeAt(b: Tables, s: Session, topic: string)
    requires !Wild(Parse(topic))
    ensures var b' := Subscribe(b, s, topic).0;
            && b'.patterns == b.patterns && b'.subTab.Keys == b.subTab.Keys + {topic}
            && forall t :: CacheOf(b'.subTab, t) == if t == topic then JoinAt(CacheOf(b.subTab, t), s) else CacheOf(b.subTab, t)
  {
  }

  /** Records only grow, by the topic of a session that joins. */
  lemma SubscribeRecords(b: Tables, s: Session, topic: string)
    requires !Wild(Parse(topic))
    ensures var b' := Subscribe(b, s, topic).0;
            && (forall x, t :: OnRecord(b, x, t) ==> OnRecord(b', x, t))
            && (forall x, t :: OnRecord(b', x, t) ==> OnRecord(b, x, t) || t == topic)
            && (topic !in b.subTab || Joins(b.subTab[topic], s) ==> OnRecord(b', s, topic))
  {
  }

  lemma SubscribedOrderly(b: Tables, isPublic: bool, topic: string, qos: nat, retain: Option<Publish>)
    requires Orderly(b)
    ensures var b' := Subscribed(b, isPublic, topic, qos, retain).0;
            && Orderly(b')
            && forall t, s :: IsMember(CacheOf(b'.subTab, t), s) <==> IsMember(CacheOf(b.subTab, t), s)
  {
    var b' := Subscribed(b, isPublic, topic, qos, retain).0;
    forall t
      ensures InOrder(CacheOf(b'.subTab, t)) && (t in b'.subTab ==> !Wild(Parse(t)))
      ensures forall s :: IsMember(CacheOf(b'.subTab, t), s) <==> IsMember(CacheOf(b.subTab, t), s)
    {
      assert InOrder(CacheOf(b.subTab, t));
      SubscribedAt(b, isPublic, topic, qos, retain, t);
    }
    forall s, t | OnRecord(b', s, t) ensures !Wild(Parse(t)) { assert OnRecord(b, s, t); }
    forall s, t | IsMember(CacheOf(b'.subTab, t), s) ensures OnRecord(b', s, t) { assert OnRecord(b, s, t); }
  }

  lemma SubscribedAt(b: Tables, isPublic: bool, topic: string, qos: nat, retain: Option<Publish>, t: string)
    requires b.patterns == map[] && InOrder(CacheOf(b.subTab, t)) && (t in b.subTab ==> !Wild(Parse(t)))
    ensures var tab := Subscribed(b, isPublic, topic, qos, retain).0.subTab;
            && InOrder(CacheOf(tab, t)) && (t in tab ==> !Wild(Parse(t)))
            && forall s :: IsMember(CacheOf(tab, t), s) <==> IsMember(CacheOf(b.subTab, t), s)
  {
    if t == topic && !Wild(Parse(topic)) {
      NothingFound(Parse(topic));
      ServeInOrder(CacheOf(b.subTab, topic), isPublic && Announce(b.publics, topic, qos).1, retain);
    }
  }

  lemma LeaveTopicAt(subTab: map<string, SubCache>, s: Session, topic: string, t: string)
    ensures CacheOf(LeaveTopic(subTab, s, topic), t)
         == if t == topic then LeaveAt(CacheOf(subTab, t), s) else CacheOf(subTab, t)
  {
  }

  lemma UnsubscribeOrderly(b: Tables, s: Session, topic: string)
    requires Orderly(b) && !Wild(Parse(topic))
    ensures var b' := Unsubscribe(b, s, topic);
            && Orderly(b')
            && forall t :: CacheOf(b'.subTab, t) == if t == topic then LeaveAt(CacheOf(b.subTab, t), s) else CacheOf(b.subTab, t)
  {
    LeftOrderly(b, Unsubscribe(b, s, topic), s, {topic});
  }

  /** The session left some topics; what it had on record is kept, unless it left all of it. */
  lemma LeftOrderly(b: Tables, b': Tables, s: Session, left: set<string>)
    requires Orderly(b) && b'.patterns == map[]
    requires b'.topics == b.topics
          || (b'.topics == b.topics - {s} && s in b.topics && forall t :: t in b.topics[s] ==> t in left)
    requires forall t :: CacheOf(b'.subTab, t) == if t in left then LeaveAt(CacheOf(b.subTab, t), s) else CacheOf(b.subTab, t)
    ensures Orderly(b')
  {
    forall t ensures InOrder(CacheOf(b'.subTab, t)) {
      assert InOrder(CacheOf(b.subTab, t));
      LeaveInOrder(CacheOf(b.subTab, t), s);
    }
    forall t | t in b'.subTab ensures !Wild(Parse(t)) { assert CacheOf(b'.subTab, t).Some?; assert CacheOf(b.subTab, t).Some?; }
    forall x, t | OnRecord(b', x, t) ensures !Wild(Parse(t)) { assert OnRecord(b, x, t); }
    forall x, t | IsMember(CacheOf(b'.subTab, t), x) ensures OnRecord(b', x, t) {
      assert InOrder(CacheOf(b.subTab, t));
      LeaveInOrder(CacheOf(b.subTab, t), s);
      assert OnRecord(b, x, t);
    }
  }

  /** Leaving a list of topics, however often each is in it, is leaving each of them once. */
  lemma {:induction false} UnsubscribeEachAt(b: Tables, s: Session, topics: seq<string>, t: string)
    requires InOrder(CacheOf(b.subTab, t)) && forall u :: u in topics ==> !Wild(Parse(u))
    ensures CacheOf(UnsubscribeEach(b, s, topics).subTab, t)
         == if t in topics then LeaveAt(CacheOf(b.subTab, t), s) else CacheOf(b.subTab, t)
    decreases |topics|
  {
    if topics != [] {
      var front, last := topics[..|topics| - 1], topics[|topics| - 1];
      assert topics == front + [last];
      UnsubscribeEachAt(b, s, front, t);
      LeaveTopicAt(UnsubscribeEach(b, s, front).subTab, s, last, t);
      LeaveTwice(CacheOf(b.subTab, t), s);
    }
  }

  lemma {:induction false} UnsubscribeEachFrame(b: Tables, s: Session, topics: seq<string>)
    requires forall u :: u in topics ==> !Wild(Parse(u))
    ensures var b' := UnsubscribeEach(b, s, topics); b'.patterns == b.patterns && b'.topics == b.topics
    decreases |topics|
  {
    if topics != [] { UnsubscribeEachFrame(b, s, topics[..|topics| - 1]); }
  }

  lemma UnsubscribeAllOrderly(b: Tables, s: Session)
    requires Orderly(b)
    ensures var b' := UnsubscribeAll(b, s);
            && Orderly(b')
            && forall t :: CacheOf(b'.subTab, t) == if OnRecord(b, s, t) then LeaveAt(CacheOf(b.subTab, t), s) else CacheOf(b.subTab, t)
  {
    if s in b.topics {
      var b0, list := b.(topics := b.topics - {s}), b.topics[s];
      var b' := UnsubscribeEach(b0, s, list);
      forall u | u in list ensures !Wild(Parse(u)) { assert OnRecord(b, s, u); }
      forall t
        ensures CacheOf(b'.subTab, t) == if t in list then LeaveAt(CacheOf(b.subTab, t), s) else CacheOf(b.subTab, t)
      {
        assert InOrder(CacheOf(b.subTab, t));
        UnsubscribeEachAt(b0, s, list, t);
      }
      UnsubscribeEachFrame(b0, s, list);
      LeftOrderly(b, b', s, set t | t in list);
    }
  }

  /** In every run without patterns the caches stay in order, whichever session objects the clients use. */
  lemma {:induction false} RunOrderly(ops: seq<Op>)
    requires AllLegal(ops) && NoPatterns(ops)
    ensures Orderly(Run(ops))
    decreases |ops|
  {
    if ops != [] {
      var before, op := ops[..|ops| - 1], ops[|ops| - 1];
      RunOrderly(before);
      var b := Run(before);
      assert op in ops;
      match op {
        case Sub(s, topic) => SubscribeOrderly(b, s, topic);
        case Pub(isPublic, topic, qos, retain) => SubscribedOrderly(b, isPublic, topic, qos, retain);
        case Unsub(s, topic) => UnsubscribeOrderly(b, s, topic);
        case UnsubAll(s) => UnsubscribeAllOrderly(b, s);
      }
    }
  }

  // ---- The plain map ----

  /** Plain insertion and deletion of client ids. */
  ghost function Clients(ops: seq<Op>, topic: string): set<string> {
    if ops == [] then {}
    else
      var rest := Clients(ops[..|ops| - 1], topic);
      match ops[|ops| - 1]
      case Sub(s, t) => if t == topic then rest + {s.clientId} else rest
      case Unsub(s, t) => if t == topic then rest - {s.clientId} else rest
      case UnsubAll(s) => rest - {s.clientId}
      case Pub(_, _, _, _) => rest
  }

  /** The caches hold exactly the clients of the plain map. */
  ghost predicate Follows(ops: seq<Op>) {
    forall t, id :: HasId(CacheOf(Run(ops).subTab, t), id) <==> id in Clients(ops, t)
  }

  /** What an unsubscription needs: a cached client is let go, and for `unsubscribe_all` has the topic on record. */
  ghost predicate Releases(b: Tables, op: Op) {
    match op
    case Unsub(s, topic) => HasId(CacheOf(b.subTab, topic), s.clientId) ==> LetsGo(CacheOf(b.subTab, topic), s)
    case UnsubAll(s) => forall t :: HasId(CacheOf(b.subTab, t), s.clientId) ==> AllLeft(b, s, t)
    case _ => true
  }

  ghost predicate AllLeft(b: Tables, s: Session, t: string) { OnRecord(b, s, t) && LetsGo(CacheOf(b.subTab, t), s) }

  /** The clients that each operation leaves in a topic's cache. */
  ghost predicate StaysAfter(b: Tables, op: Op, t: string, id: string) {
    var had := HasId(CacheOf(b.subTab, t), id);
    match op
    case Sub(s, topic) => had || (t == topic && id == s.clientId)
    case Pub(_, _, _, _) => had
    case Unsub(s, topic) => had && !(t == topic && id == s.clientId && LetsGo(CacheOf(b.subTab, t), s))
    case UnsubAll(s) => had && !(id == s.clientId && AllLeft(b, s, t))
  }

  lemma StepClients(b: Tables, op: Op, t: string, id: string)
    requires Orderly(b) && ((op.Sub? || op.Unsub?) ==> !Wild(Parse(op.topic)))
    ensures HasId(CacheOf(Step(b, op).subTab, t), id) <==> StaysAfter(b, op, t, id)
  {
    var c, c' := CacheOf(b.subTab, t), CacheOf(Step(b, op).subTab, t);
    assert InOrder(c);
    match op {
      case Sub(s, topic) => SubscribeOrderly(b, s, topic); JoinInOrder(c, s);
      case Pub(isPublic, topic, qos, retain) =>
        SubscribedOrderly(b, isPublic, topic, qos, retain);
        SameIds(c, c', id);
      case Unsub(s, topic) => UnsubscribeOrderly(b, s, topic); LeaveInOrder(c, s);
      case UnsubAll(s) => UnsubscribeAllOrderly(b, s); LeaveInOrder(c, s);
    }
  }

  lemma SameIds(c: Option<SubCache>, c': Option<SubCache>, id: string)
    requires forall s :: IsMember(c', s) <==> IsMember(c, s)
    ensures HasId(c', id) <==> HasId(c, id)
  {
    if HasId(c, id) { var x :| x in Members(c.value) && x.clientId == id; assert IsMember(c', x); }
    if HasId(c', id) { var x :| x in Members(c'.value) && x.clientId == id; assert IsMember(c, x); }
  }

  /** A step keeps following the plain map exactly if it releases. */
  lemma StepFollowsIff(ops: seq<Op>)
    requires ops != [] && AllLegal(ops) && NoPatterns(ops) && Follows(ops[..|ops| - 1])
    ensures Follows(ops) <==> Releases(Run(ops[..|ops| - 1]), ops[|ops| - 1])
  {
    var before, op := ops[..|ops| - 1], ops[|ops| - 1];
    var b := Run(before);
    RunOrderly(before);
    assert op in ops;
    forall t, id
      ensures HasId(CacheOf(Run(ops).subTab, t), id) <==> StaysAfter(b, op, t, id)
      ensures HasId(CacheOf(b.subTab, t), id) <==> id in Clients(before, t)
    {
      StepClients(b, op, t, id);
    }
    if Releases(b, op) {
      forall t, id ensures HasId(CacheOf(Run(ops).subTab, t), id) <==> id in Clients(ops, t) { }
    } else {
      var t := if op.Unsub? then op.topic else StuckTopic(b, op);
      assert HasId(CacheOf(Run(ops).subTab, t), op.s.clientId) && op.s.clientId !in Clients(ops, t);
    }
  }

  ghost function StuckTopic(b: Tables, op: Op): string
    requires op.UnsubAll? && !Releases(b, op)
  {
    var t :| HasId(CacheOf(b.subTab, t), op.s.clientId) && !AllLeft(b, op.s, t); t
  }

  ghost predicate AlwaysFollows(ops: seq<Op>) {
    Follows(ops) && (ops != [] ==> AlwaysFollows(ops[..|ops| - 1]))
  }

  ghost predicate AllRelease(ops: seq<Op>) {
    ops != [] ==> AllRelease(ops[..|ops| - 1]) && Releases(Run(ops[..|ops| - 1]), ops[|ops| - 1])
  }

  /**
    Without patterns: at every point of a run the caches hold exactly the clients that plain
    insertion and deletion leave, if and only if every unsubscription of the run released.
   */
  lemma {:induction false} FollowsIff(ops: seq<Op>)
    requires AllLegal(ops) && NoPatterns(ops)
    ensures AlwaysFollows(ops) <==> AllRelease(ops)
    decreases |ops|
  {
    if ops != [] {
      FollowsIff(ops[..|ops| - 1]);
      if AlwaysFollows(ops[..|ops| - 1]) { StepFollowsIff(ops); }
    }
  }

  // ---- What a publish answers ----

  /** In every run without patterns a publish answers each client at most once, in strict client order. */
  lemma AnswersInOrder(ops: seq<Op>, isPublic: bool, topic: string, qos: nat, retain: Option<Publish>)
    requires AllLegal(ops) && NoPatterns(ops) && !Wild(Parse(topic))
    ensures var r := Subscribed(Run(ops), isPublic, topic, qos, retain).1;
            && r.Some? && SortedSessions(r.value)
            && forall s :: s in r.value <==> IsMember(CacheOf(Run(ops).subTab, topic), s)
  {
    var b := Run(ops);
    RunOrderly(ops);
    assert InOrder(CacheOf(b.subTab, topic));
    NothingFound(Parse(topic));
    ServeInOrder(CacheOf(b.subTab, topic), isPublic && Announce(b.publics, topic, qos).1, retain);
  }

  /** After a run whose unsubscriptions released, it answers exactly the subscribed clients, each once. */
  lemma ReturnsClients(ops: seq<Op>, isPublic: bool, topic: string, qos: nat, retain: Option<Publish>)
    requires AllLegal(ops) && NoPatterns(ops) && AllRelease(ops) && !Wild(Parse(topic))
    ensures var r := Subscribed(Run(ops), isPublic, topic, qos, retain).1;
            && r.Some? && SortedSessions(r.value)
            && multiset(ClientIds(r.value)) == multiset(Clients(ops, topic))
  {
    FollowsIff(ops);
    AnswersInOrder(ops, isPublic, topic, qos, retain);
    var list := Subscribed(Run(ops), isPublic, topic, qos, retain).1.value;
    forall id ensures multiset(ClientIds(list))[id] == multiset(Clients(ops, topic))[id] {
      assert HasId(CacheOf(Run(ops).subTab, topic), id) <==> id in Clients(ops, topic);
      HasClientIff(list, id);
      IdOnce(list, id);
    }
  }

  lemma IdOnce(list: seq<Session>, id: string)
    requires SortedSessions(list)
    ensures multiset(ClientIds(list))[id] == if id in ClientIds(list) then 1 else 0
  {
    var ids := ClientIds(list);
    if id in ids {
      var i :| 0 <= i < |ids| && ids[i] == id;
      assert ids == ids[..i] + [id] + ids[i + 1..];
      LessIrreflexive(id);
    }
  }

  /** A client that comes back with a new session object cannot unsubscribe while it is the lone subscriber. */
  lemma NewSessionStaysSubscribed(x: Session, y: Session, topic: string)
    requires x != y && x.clientId == y.clientId && !Wild(Parse(topic))
    ensures var ops := [Sub(x, topic), Unsub(y, topic)];
            IsMember(CacheOf(Run(ops).subTab, topic), x) && x.clientId !in Clients(ops, topic)
  {
    var ops := [Sub(x, topic), Unsub(y, topic)];
    assert ops[..1] == [Sub(x, topic)];
    LoneSubscriber(x, topic);
  }

  lemma PlainTopic()
    ensures Parse("t") == [Normal("t")]
  {
    assert "t"[1..] == "" && "" + ['t'] == "t";
    assert "t"[0] != "+"[0] && "t"[0] != "#"[0];
  }

  /** The concrete run. */
  lemma ReconnectedClientStays()
    ensures var ops := [Sub(Session(1, "a"), "t"), Unsub(Session(2, "a"), "t")];
            IsMember(CacheOf(Run(ops).subTab, "t"), Session(1, "a")) && "a" !in Clients(ops, "t")
  {
    PlainTopic();
    NewSessionStaysSubscribed(Session(1, "a"), Session(2, "a"), "t");
  }

  lemma OnePerClient(list: seq<Session>, x: Session, y: Session)
    requires SortedSessions(list) && x in list && y in list && x.clientId == y.clientId
    ensures x == y
  {
    var i :| 0 <= i < |list| && list[i] == x;
    var j :| 0 <= j < |list| && list[j] == y;
    var ids := ClientIds(list);
    assert ids[i] == ids[j];
    LessIrreflexive(ids[i]);
  }

  /** A session that subscribes is answered if and only if no other one of its client was cached before. */
  lemma NewcomerAnsweredIff(ops: seq<Op>, s: Session, topic: string, isPublic: bool, qos: nat, retain: Option<Publish>)
    requires AllLegal(ops) && NoPatterns(ops) && !Wild(Parse(topic))
    ensures var r := Subscribed(Run(ops + [Sub(s, topic)]), isPublic, topic, qos, retain).1;
            r.Some? && (s in r.value <==> NoOtherAt(Run(ops).subTab, topic, s))
  {
    var more, c := ops + [Sub(s, topic)], CacheOf(Run(ops).subTab, topic);
    assert more[..|more| - 1] == ops;
    RunOrderly(ops);
    assert InOrder(c);
    SubscribeOrderly(Run(ops), s, topic);
    JoinInOrder(c, s);
    AnswersInOrder(more, isPublic, topic, qos, retain);
    if IsMember(c, s) {
      forall x | x in Members(c.value) && x.clientId == s.clientId ensures x == s { OnePerClient(Members(c.value), x, s); }
    }
  }

  /** A client that comes back with a new session object and subscribes again is answered through the old one. */
  lemma OldSessionAnswers(x: Session, y: Session, topic: string, isPublic: bool, qos: nat, retain: Option<Publish>)
    requires x != y && x.clientId == y.clientId && !Wild(Parse(topic))
    ensures Subscribed(Run([Sub(x, topic), Sub(y, topic)]), isPublic, topic, qos, retain).1 == Some([x])
  {
    var ops := [Sub(x, topic), Sub(y, topic)];
    AnswersInOrder(ops, isPublic, topic, qos, retain);
    OldSessionCached(x, y, topic);
    OnlyOne(Subscribed(Run(ops), isPublic, topic, qos, retain).1.value, x);
  }

  lemma OldSessionCached(x: Session, y: Session, topic: string)
    requires x.clientId == y.clientId && !Wild(Parse(topic))
    ensures forall s :: IsMember(CacheOf(Run([Sub(x, topic), Sub(y, topic)]).subTab, topic), s) <==> s == x
  {
    var ops, first := [Sub(x, topic), Sub(y, topic)], [Sub(x, topic)];
    assert ops[..1] == first;
    LoneSubscriber(x, topic);
    SubscribeAt(Run(first), y, topic);
    var c := CacheOf(Run(first).subTab, topic);
    SingleSorted(x);
    JoinInOrder(c, y);
    assert x in Members(c.value);
  }

  lemma LoneSubscriber(x: Session, topic: string)
    requires !Wild(Parse(topic))
    ensures CacheOf(Run([Sub(x, topic)]).subTab, topic) == Some(SubCache(None, Some(x), []))
  {
    RunTwo(Sub(x, topic), Sub(x, topic));
  }

  lemma OnlyOne(list: seq<Session>, x: Session)
    requires SortedSessions(list) && forall s :: s in list <==> s == x
    ensures list == [x]
  {
    assert x in list;
    if |list| > 1 { NotTwice(list); }
    forall k | 0 <= k < |list| ensures list[k] == x { assert list[k] in list; }
  }

  lemma NotTwice(list: seq<Session>)
    requires SortedSessions(list) && |list| > 1
    ensures list[0] != list[1]
  {
    var ids := ClientIds(list);
    assert Less(ids[0], ids[1]);
    LessIrreflexive(ids[0]);
  }

  /** The concrete run. */
  lemma ReconnectedClientMisses()
    ensures Subscribed(Run([Sub(Session(1, "a"), "t"), Sub(Session(2, "a"), "t")]), true, "t", 0, None).1
         == Some([Session(1, "a")])
  {
    PlainTopic();
    OldSessionAnswers(Session(1, "a"), Session(2, "a"), "t", true, 0, None);
  }

  // ---- One session object per client ----

  /** Then every unsubscription releases. */
  lemma {:induction false} OneSessionReleases(ops: seq<Op>)
    requires AllLegal(ops) && NoPatterns(ops) && OneSessionPerClient(ops)
    ensures AllRelease(ops)
    decreases |ops|
  {
    if ops != [] {
      var before, op := ops[..|ops| - 1], ops[|ops| - 1];
      OneSessionReleases(before);
      RunOrderly(before);
      if !op.Pub? {
        forall t | HasId(CacheOf(Run(before).subTab, t), op.s.clientId) ensures AllLeft(Run(before), op.s, t) {
          OneSessionLeaves(ops, t);
        }
      }
    }
  }

  lemma OneSessionLeaves(ops: seq<Op>, t: string)
    requires ops != [] && AllLegal(ops) && OneSessionPerClient(ops) && !ops[|ops| - 1].Pub?
    requires var b := Run(ops[..|ops| - 1]); Orderly(b) && HasId(CacheOf(b.subTab, t), ops[|ops| - 1].s.clientId)
    ensures AllLeft(Run(ops[..|ops| - 1]), ops[|ops| - 1].s, t)
  {
    var before, op := ops[..|ops| - 1], ops[|ops| - 1];
    var c := CacheOf(Run(before).subTab, t);
    var x :| x in Members(c.value) && x.clientId == op.s.clientId;
    assert IsMember(c, x);
    CachedAsked(before, t, x);
    var i :| 0 <= i < |before| && before[i].Sub? && before[i].s == x && Covers(before[i].topic, t);
    assert ops[i] in ops && op in ops;
    assert x == op.s;
  }

  lemma CachedAsked(ops: seq<Op>, t: string, x: Session)
    requires AllLegal(ops) && IsMember(CacheOf(Run(ops).subTab, t), x)
    ensures AskedFor(ops, x, t)
  {
    RunSound(ops);
    assert SoundCache(Subscriptions(ops), t, Run(ops).subTab[t]);
    var filter :| (x, filter) in Subscriptions(ops) && Covers(filter, t);
  }

  /** Plain insertion and deletion of the session objects themselves. */
  ghost function Subscribers(ops: seq<Op>, topic: string): set<Session> {
    if ops == [] then {}
    else
      var rest := Subscribers(ops[..|ops| - 1], topic);
      match ops[|ops| - 1]
      case Sub(s, t) => if t == topic then rest + {s} else rest
      case Unsub(s, t) => if t == topic then rest - {s} else rest
      case UnsubAll(s) => rest - {s}
      case Pub(_, _, _, _) => rest
  }

  ghost predicate Acts(ops: seq<Op>, s: Session) { exists op :: op in ops && !op.Pub? && op.s == s }

  lemma {:induction false} SubscribersClients(ops: seq<Op>, topic: string)
    requires OneSessionPerClient(ops)
    ensures forall s :: s in Subscribers(ops, topic) ==> Acts(ops, s)
    ensures forall s :: Acts(ops, s) ==> (s in Subscribers(ops, topic) <==> s.clientId in Clients(ops, topic))
    decreases |ops|
  {
    if ops != [] {
      var before, op := ops[..|ops| - 1], ops[|ops| - 1];
      assert ops == before + [op];
      SubscribersClients(before, topic);
      ClientsAct(before, topic);
      forall s | Acts(before, s) ensures Acts(ops, s) { var x :| x in before && !x.Pub? && x.s == s; assert x in ops; }
      assert !op.Pub? ==> op in ops && Acts(ops, op.s);
      forall s | Acts(ops, s) ensures s in Subscribers(ops, topic) <==> s.clientId in Clients(ops, topic) {
        var x :| x in ops && !x.Pub? && x.s == s;
        if !Acts(before, s) { NewActor(before, op, topic, s); }
        assert !op.Pub? && op.s.clientId == s.clientId ==> op.s == s;
      }
    }
  }

  /** Every client of the plain map acts through some session. */
  lemma {:induction false} ClientsAct(ops: seq<Op>, topic: string)
    ensures forall id :: id in Clients(ops, topic) ==> exists s :: Acts(ops, s) && s.clientId == id
    decreases |ops|
  {
    if ops != [] {
      var before, op := ops[..|ops| - 1], ops[|ops| - 1];
      assert ops == before + [op];
      ClientsAct(before, topic);
      forall id | id in Clients(ops, topic) ensures exists s :: Acts(ops, s) && s.clientId == id {
        if id in Clients(before, topic) {
          var s :| Acts(before, s) && s.clientId == id;
          var x :| x in before && !x.Pub? && x.s == s;
          assert x in ops && Acts(ops, s);
        } else {
          assert op in ops && Acts(ops, op.s);
        }
      }
    }
  }

  /** A session that has not acted before has no client in the map. */
  lemma NewActor(before: seq<Op>, op: Op, topic: string, s: Session)
    requires OneSessionPerClient(before + [op]) && !Acts(before, s) && Acts(before + [op], s)
    requires forall id :: id in Clients(before, topic) ==> exists x :: Acts(before, x) && x.clientId == id
    ensures s.clientId !in Clients(before, topic)
  {
  }

  /** With one session object per client a publish answers exactly the subscribed sessions. */
  lemma ReturnsSubscribers(ops: seq<Op>, isPublic: bool, topic: string, qos: nat, retain: Option<Publish>)
    requires AllLegal(ops) && NoPatterns(ops) && OneSessionPerClient(ops) && !Wild(Parse(topic))
    ensures var r := Subscribed(Run(ops), isPublic, topic, qos, retain).1;
            && r.Some? && SortedSessions(r.value)
            && multiset(r.value) == multiset(Subscribers(ops, topic))
  {
    OneSessionReleases(ops);
    FollowsIff(ops);
    AnswersInOrder(ops, isPublic, topic, qos, retain);
    SubscribersClients(ops, topic);
    var list := Subscribed(Run(ops), isPublic, topic, qos, retain).1.value;
    forall s ensures multiset(list)[s] == multiset(Subscribers(ops, topic))[s] {
      SortedCount(list, s);
      MemberIff(ops, topic, s);
    }
  }

  lemma MemberIff(ops: seq<Op>, topic: string, s: Session)
    requires AllLegal(ops) && NoPatterns(ops) && OneSessionPerClient(ops) && Follows(ops)
    ensures IsMember(CacheOf(Run(ops).subTab, topic), s) <==> s in Subscribers(ops, topic)
  {
    var c := CacheOf(Run(ops).subTab, topic);
    SubscribersClients(ops, topic);
    assert HasId(c, s.clientId) <==> s.clientId in Clients(ops, topic);
    forall x | IsMember(c, x) ensures Acts(ops, x) {
      CachedAsked(ops, topic, x);
      var i :| 0 <= i < |ops| && ops[i].Sub? && ops[i].s == x && Covers(ops[i].topic, topic);
      assert ops[i] in ops;
    }
    if s in Subscribers(ops, topic) {
      var x :| x in Members(c.value) && x.clientId == s.clientId;
      assert IsMember(c, x);
      SameActor(ops, x, s);
    }
  }

  lemma SameActor(ops: seq<Op>, x: Session, y: Session)
    requires OneSessionPerClient(ops) && Acts(ops, x) && Acts(ops, y) && x.clientId == y.clientId
    ensures x == y
  {
    var a :| a in ops && !a.Pub? && a.s == x;
    var b :| b in ops && !b.Pub? && b.s == y;
  }
}
