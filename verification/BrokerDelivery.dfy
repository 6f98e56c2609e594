/**
  No lost delivery: after a subscription, and as long as its client takes it back neither
  directly nor through a pattern, a public message reaches that client, whatever else
  happens; and it reaches the very session object that subscribed if no other one of the
  client stood in its place at the time.
 */
module BrokerDelivery {
  import opened Prelude
  import opened TopicPaths
  import opened PatternRegistry
  import opened BrokerModel
  import opened BrokerRuns

  /** A subscription asks for a topic: it names it, or is a pattern that strictly matches it. */
  ghost predicate AsksFor(filter: string, topic: string) {
    filter == topic || (Wild(Parse(filter)) && StrictMatch(Parse(filter), Parse(topic)))
  }

  /** An unsubscription reaches a topic's cache: it names it, or is a pattern that `is_match` accepts. */
  ghost predicate Touches(filter: string, topic: string) {
    filter == topic || (Wild(Parse(filter)) && IsMatch(Parse(filter), Parse(topic)))
  }

  /** An operation by which a client does not take a subscription to the topic back. */
  ghost predicate Harmless(op: Op, id: string, topic: string) {
    match op
    case Unsub(s, filter) => s.clientId == id ==> !Touches(filter, topic)
    case UnsubAll(s) => s.clientId != id
    case _ => true
  }

  // ---- Some session of a class: one session object, or all of a client ----

  ghost predicate AnyOf(who: iset<Session>, list: seq<Session>) { exists x :: x in who && x in list }

  ghost predicate Cached(subTab: map<string, SubCache>, who: iset<Session>, topic: string) {
    topic in subTab && AnyOf(who, Members(subTab[topic]))
  }

  ghost predicate OfClient(who: iset<Session>, id: string) { forall x :: x in who ==> x.clientId == id }

  ghost function Client(id: string): iset<Session> { iset x: Session | x.clientId == id }

  /** A lone subscriber sits in `first` alone. */
  ghost predicate Split(subTab: map<string, SubCache>, topic: string) {
    topic in subTab && subTab[topic].first.Some? ==> subTab[topic].sessions == []
  }

  /** A message on the topic will be answered with one of the class, now or once the topic is public. */
  ghost predicate Waits(b: Tables, who: iset<Session>, filter: string, topic: string) {
    if Wild(Parse(filter)) then
      AnyOf(who, SessionsAt(b.patterns, Parse(filter))) && (topic in Topics(b.publics) ==> Cached(b.subTab, who, topic))
    else Cached(b.subTab, who, topic)
  }

  // ---- Subscribing ----

  lemma SubscribeTopicKeeps(b: Tables, s: Session, key: string, topic: string, who: iset<Session>)
    requires Split(b.subTab, topic)
    ensures var tab := SubscribeTopic(b, s, key).0.subTab;
            Split(tab, topic) && (Cached(b.subTab, who, topic) ==> Cached(tab, who, topic))
  {
    if Cached(b.subTab, who, topic) && key == topic {
      var x :| x in who && x in Members(b.subTab[topic]);
      assert x in Members(SubscribeTopic(b, s, key).0.subTab[topic]);
    }
  }

  lemma {:induction false} SubscribeAllKeeps(b: Tables, s: Session, keys: seq<string>, topic: string, who: iset<Session>)
    requires Split(b.subTab, topic)
    ensures var b' := SubscribeAll(b, s, keys).0;
            && b'.patterns == b.patterns && b'.publics == b.publics
            && Split(b'.subTab, topic) && (Cached(b.subTab, who, topic) ==> Cached(b'.subTab, who, topic))
    decreases |keys|
  {
    if keys != [] {
      var front, last := keys[..|keys| - 1], keys[|keys| - 1];
      SubscribeAllKeeps(b, s, front, topic, who);
      SubscribeTopicKeeps(SubscribeAll(b, s, front).0, s, last, topic, who);
    }
  }

  /** The client has no other session object here. */
  ghost predicate NoOther(list: seq<Session>, s: Session) { forall x :: x in list && x.clientId == s.clientId ==> x == s }

  ghost predicate NoOtherAt(subTab: map<string, SubCache>, topic: string, s: Session) {
    topic in subTab ==> NoOther(Members(subTab[topic]), s)
  }

  lemma EnrollAdds(list: seq<Session>, s: Session)
    ensures AnyOf(Client(s.clientId), Enroll(list, s))
    ensures NoOther(list, s) ==> NoOther(Enroll(list, s), s) && AnyOf(iset{s}, Enroll(list, s))
  {
    var x :| x in Enroll(list, s) && x.clientId == s.clientId;
  }

  lemma SubscribeTopicJoins(b: Tables, s: Session, topic: string)
    requires Split(b.subTab, topic)
    ensures var tab := SubscribeTopic(b, s, topic).0.subTab;
            && Cached(tab, Client(s.clientId), topic)
            && (NoOtherAt(b.subTab, topic, s) ==> Cached(tab, iset{s}, topic))
  {
    if topic in b.subTab {
      EnrollAdds(Members(b.subTab[topic]), s);
      var c := b.subTab[topic];
      assert (if c.first.Some? then c.sessions + [c.first.value] else c.sessions) == Members(c);
    } else {
      assert s in Members(SubscribeTopic(b, s, topic).0.subTab[topic]);
    }
  }

  lemma {:induction false} SubscribeAllAlone(b: Tables, s: Session, keys: seq<string>, topic: string)
    requires Split(b.subTab, topic) && NoOtherAt(b.subTab, topic, s)
    ensures NoOtherAt(SubscribeAll(b, s, keys).0.subTab, topic, s)
    decreases |keys|
  {
    if keys != [] {
      var front, last := keys[..|keys| - 1], keys[|keys| - 1];
      SubscribeAllAlone(b, s, front, topic);
      SubscribeAllKeeps(b, s, front, topic, iset{});
      SubscribeTopicAlone(SubscribeAll(b, s, front).0, s, last, topic);
    }
  }

  lemma SubscribeTopicAlone(b: Tables, s: Session, key: string, topic: string)
    requires Split(b.subTab, topic) && NoOtherAt(b.subTab, topic, s)
    ensures NoOtherAt(SubscribeTopic(b, s, key).0.subTab, topic, s)
  {
    if key == topic && topic in b.subTab {
      var c := b.subTab[topic];
      assert (if c.first.Some? then c.sessions + [c.first.value] else c.sessions) == Members(c);
      EnrollAdds(Members(c), s);
    }
  }

  lemma {:induction false} SubscribeAllJoins(b: Tables, s: Session, keys: seq<string>, topic: string)
    requires Split(b.subTab, topic) && topic in keys
    ensures var tab := SubscribeAll(b, s, keys).0.subTab;
            && Cached(tab, Client(s.clientId), topic)
            && (NoOtherAt(b.subTab, topic, s) ==> Cached(tab, iset{s}, topic))
    decreases |keys|
  {
    var front, last := keys[..|keys| - 1], keys[|keys| - 1];
    assert keys == front + [last];
    var mid := SubscribeAll(b, s, front).0;
    SubscribeAllKeeps(b, s, front, topic, iset{});
    if last == topic {
      if NoOtherAt(b.subTab, topic, s) { SubscribeAllAlone(b, s, front, topic); }
      SubscribeTopicJoins(mid, s, topic);
    } else {
      SubscribeAllJoins(b, s, front, topic);
      SubscribeTopicKeeps(mid, s, last, topic, Client(s.clientId));
      SubscribeTopicKeeps(mid, s, last, topic, iset{s});
    }
  }

  lemma StrictMatchHashLast(p: Path, t: Path)
    requires StrictMatch(p, t)
    ensures HashLast(p)
    decreases |p|
  {
    if p != [] && p[0] != Hash {
      StrictMatchHashLast(p[1..], t[1..]);
      assert forall i :: 0 < i < |p| ==> p[i] == p[1..][i - 1];
    }
  }

  lemma AskingTouches(filter: string, topic: string)
    requires AsksFor(filter, topic)
    ensures Touches(filter, topic)
  {
    if filter != topic {
      StrictMatchHashLast(Parse(filter), Parse(topic));
      StrictImpliesIsMatch(Parse(filter), Parse(topic));
    }
  }

  /** A new pattern reaches every public topic it strictly matches. */
  lemma PatternReachesPublics(b: Tables, filter: string, topic: string)
    requires topic in Topics(b.publics) && Wild(Parse(filter)) && StrictMatch(Parse(filter), Parse(topic))
    ensures topic in MatchedPublics(b.publics, Parse(filter))
  {
    StrictMatchHashLast(Parse(filter), Parse(topic));
    StrictImpliesIsMatch(Parse(filter), Parse(topic));
    var i :| 0 <= i < |b.publics| && Topics(b.publics)[i] == topic;
    assert b.publics[i].0 == topic;
  }

  /** No other session object of the client stands where the subscription would put this one. */
  ghost predicate Alone(b: Tables, s: Session, filter: string, topic: string) {
    if Wild(Parse(filter)) then
      NoOther(SessionsAt(b.patterns, Parse(filter)), s) && (topic in Topics(b.publics) ==> NoOtherAt(b.subTab, topic, s))
    else NoOtherAt(b.subTab, topic, s)
  }

  /** What a subscription achieves: the client waits for the topic, and if it is alone this very session does. */
  lemma SubscribeWaits(b: Tables, s: Session, filter: string, topic: string)
    requires Split(b.subTab, topic) && AsksFor(filter, topic) && !Wild(Parse(topic))
    ensures var b' := Subscribe(b, s, filter).0;
            && Waits(b', Client(s.clientId), filter, topic)
            && (Alone(b, s, filter, topic) ==> Waits(b', iset{s}, filter, topic))
  {
    if Wild(Parse(filter)) {
      var keys := MatchedPublics(b.publics, Parse(filter));
      var b1 := b.(topics := SaveTopic(SaveTopics(b.topics, s, keys), s, filter));
      SubscribeAllKeeps(b1, s, keys, topic, iset{});
      EnrollAdds(SessionsAt(b.patterns, Parse(filter)), s);
      if topic in Topics(b.publics) {
        PatternReachesPublics(b, filter, topic);
        SubscribeAllJoins(b1, s, keys, topic);
      }
    } else {
      SubscribeTopicJoins(b, s, topic);
    }
  }

  lemma SubscribeKeeps(b: Tables, s: Session, key: string, who: iset<Session>, filter: string, topic: string)
    requires Split(b.subTab, topic) && Waits(b, who, filter, topic)
    ensures Waits(Subscribe(b, s, key).0, who, filter, topic)
  {
    if Wild(Parse(key)) {
      var keys := MatchedPublics(b.publics, Parse(key));
      SubscribeAllKeeps(b.(topics := SaveTopic(SaveTopics(b.topics, s, keys), s, key)), s, keys, topic, who);
      RegisterKeeps(b.patterns, Parse(key), s, who, Parse(filter));
    } else {
      SubscribeTopicKeeps(b, s, key, topic, who);
    }
  }

  lemma RegisterKeeps(reg: Registry, p: Path, s: Session, who: iset<Session>, q: Path)
    requires AnyOf(who, SessionsAt(reg, q)) || q != p
    ensures AnyOf(who, SessionsAt(reg, q)) ==> AnyOf(who, SessionsAt(Register(reg, p, s), q))
  {
    if AnyOf(who, SessionsAt(reg, q)) {
      var x :| x in who && x in SessionsAt(reg, q);
      assert x in SessionsAt(Register(reg, p, s), q);
    }
  }

  // ---- Publishing ----

  lemma ServeKeeps(cache: Option<SubCache>, found: Option<seq<Session>>, isNew: bool, retain: Option<Publish>, who: iset<Session>)
    requires found.Some?
    ensures var c := Serve(cache, found, isNew, retain).value;
            && (cache.Some? && AnyOf(who, Members(cache.value)) ==> AnyOf(who, Members(c)))
            && ((isNew || cache.None?) && AnyOf(who, found.value) ==> AnyOf(who, Members(c)))
  {
    var c := Serve(cache, found, isNew, retain).value;
    if cache.Some? { assert forall x :: x in Members(cache.value) ==> x in Members(c); }
    if isNew || cache.None? { assert forall x :: x in found.value ==> x in Members(c); }
  }

  lemma PatternFound(reg: Registry, who: iset<Session>, p: Path, topic: Path)
    requires AnyOf(who, SessionsAt(reg, p)) && StrictMatch(p, topic) && topic != [] && !Wild(topic)
    ensures AnyOf(who, Lookup(reg, topic).value)
  {
    var x :| x in who && x in SessionsAt(reg, p);
    LookupMembers(reg, topic, x);
    assert p in reg && x in reg[p];
  }

  /** A publish keeps everyone waiting, and once a topic is public its cache serves the patterns too. */
  lemma PublishKeeps(b: Tables, isPublic: bool, t: string, qos: nat, retain: Option<Publish>,
                     who: iset<Session>, filter: string, topic: string)
    requires SoundPublics(b.publics) && (isPublic ==> !Wild(Parse(t))) && !Wild(Parse(topic))
    requires AsksFor(filter, topic) && Waits(b, who, filter, topic)
    ensures Waits(Subscribed(b, isPublic, t, qos, retain).0, who, filter, topic)
    ensures isPublic && t == topic ==>
              var (b', r) := Subscribed(b, isPublic, t, qos, retain); r.Some? && AnyOf(who, r.value)
  {
    if isPublic { AnnounceSound(b.publics, t, qos); }
    if t == topic {
      var isNew := isPublic && Announce(b.publics, t, qos).1;
      if Wild(Parse(filter)) { PatternFound(b.patterns, who, Parse(filter), Parse(topic)); }
      ServeKeeps(CacheOf(b.subTab, topic), Lookup(b.patterns, Parse(topic)), isNew, retain, who);
    }
  }

  // ---- Unsubscribing ----

  /** Another client's leaving takes nobody of the class away. */
  lemma LeaveKeeps(c: SubCache, s: Session, who: iset<Session>)
    requires AnyOf(who, Members(c)) && forall x :: x in who ==> x.clientId != s.clientId
    ensures !Leave(c, s).1 && AnyOf(who, Members(Leave(c, s).0))
  {
    var x :| x in who && x in Members(c);
    if c.first.None? { assert x in Withdraw(c.sessions, s); }
  }

  lemma UnsubscribeKeeps(b: Tables, s: Session, key: string, who: iset<Session>, id: string, filter: string, topic: string)
    requires OfClient(who, id) && Harmless(Unsub(s, key), id, topic) && !Wild(Parse(topic))
    requires AsksFor(filter, topic) && Waits(b, who, filter, topic)
    ensures Waits(Unsubscribe(b, s, key), who, filter, topic)
  {
    AskingTouches(filter, topic);
    if Cached(b.subTab, who, topic) { UnsubscribeKeepsCached(b, s, key, who, id, topic); }
    if Wild(Parse(filter)) {
      var x :| x in who && x in SessionsAt(b.patterns, Parse(filter));
      assert s.clientId == id ==> Parse(key) != Parse(filter) || !Wild(Parse(key));
      if Wild(Parse(key)) { assert x in SessionsAt(Unregister(b.patterns, Parse(key), s), Parse(filter)); }
    }
  }

  lemma UnsubscribeKeepsCached(b: Tables, s: Session, key: string, who: iset<Session>, id: string, topic: string)
    requires OfClient(who, id) && Harmless(Unsub(s, key), id, topic) && Cached(b.subTab, who, topic)
    ensures Cached(Unsubscribe(b, s, key).subTab, who, topic)
  {
    var c, c' := b.subTab[topic], CacheOf(Unsubscribe(b, s, key).subTab, topic);
    UnsubscribeAt(b, s, key, topic);
    if s.clientId != id {
      LeaveKeeps(c, s, who);
      assert c' == Some(c) || c' == Some(Leave(c, s).0);
    } else {
      assert c' == Some(c);
    }
  }

  lemma UnsubscribeAt(b: Tables, s: Session, key: string, topic: string)
    requires topic in b.subTab
    ensures var c, c' := b.subTab[topic], CacheOf(Unsubscribe(b, s, key).subTab, topic);
            && (!Touches(key, topic) ==> c' == Some(c))
            && (c' == Some(c) || c' == if Leave(c, s).1 then None else Some(Leave(c, s).0))
  {
  }

  lemma {:induction false} UnsubscribeEachKeeps(b: Tables, s: Session, keys: seq<string>, who: iset<Session>, id: string, filter: string, topic: string)
    requires OfClient(who, id) && s.clientId != id && !Wild(Parse(topic))
    requires AsksFor(filter, topic) && Waits(b, who, filter, topic)
    ensures Waits(UnsubscribeEach(b, s, keys), who, filter, topic)
    decreases |keys|
  {
    if keys != [] {
      var front, last := keys[..|keys| - 1], keys[|keys| - 1];
      UnsubscribeEachKeeps(b, s, front, who, id, filter, topic);
      UnsubscribeKeeps(UnsubscribeEach(b, s, front), s, last, who, id, filter, topic);
    }
  }

  // ---- Runs ----

  lemma StepKeeps(ops: seq<Op>, op: Op, who: iset<Session>, id: string, filter: string, topic: string)
    requires AllLegal(ops) && Legal(op) && OfClient(who, id) && Harmless(op, id, topic) && !Wild(Parse(topic))
    requires AsksFor(filter, topic) && Waits(Run(ops), who, filter, topic)
    ensures Waits(Step(Run(ops), op), who, filter, topic)
  {
    var b := Run(ops);
    RunSplit(ops, topic);
    match op {
      case Sub(s, key) => SubscribeKeeps(b, s, key, who, filter, topic);
      case Pub(isPublic, t, qos, retain) => PublishKeeps(b, isPublic, t, qos, retain, who, filter, topic);
      case Unsub(s, key) => UnsubscribeKeeps(b, s, key, who, id, filter, topic);
      case UnsubAll(s) =>
        if s in b.topics {
          UnsubscribeEachKeeps(b.(topics := b.topics - {s}), s, b.topics[s], who, id, filter, topic);
        }
    }
  }

  lemma RunSplit(ops: seq<Op>, topic: string)
    requires AllLegal(ops)
    ensures Split(Run(ops).subTab, topic) && SoundPublics(Run(ops).publics)
  {
    RunSound(ops);
    if topic in Run(ops).subTab { assert SoundCache(Subscriptions(ops), topic, Run(ops).subTab[topic]); }
  }

  /** After operation i the client takes the topic back neither directly nor through a pattern. */
  ghost predicate StaysOn(ops: seq<Op>, i: nat, id: string, topic: string) {
    forall j :: i < j < |ops| ==> Harmless(ops[j], id, topic)
  }

  lemma {:induction false} RunKeeps(ops: seq<Op>, i: nat, who: iset<Session>, id: string, filter: string, topic: string)
    requires i < |ops| && AllLegal(ops) && OfClient(who, id) && StaysOn(ops, i, id, topic) && !Wild(Parse(topic))
    requires AsksFor(filter, topic) && Waits(Run(ops[..i + 1]), who, filter, topic)
    ensures Waits(Run(ops), who, filter, topic)
    decreases |ops|
  {
    if i + 1 == |ops| {
      assert ops[..i + 1] == ops;
    } else {
      var before, op := ops[..|ops| - 1], ops[|ops| - 1];
      assert before[..i + 1] == ops[..i + 1] && op in ops;
      RunKeeps(before, i, who, id, filter, topic);
      StepKeeps(before, op, who, id, filter, topic);
    }
  }

  lemma Answered(ops: seq<Op>, i: nat, who: iset<Session>, id: string, topic: string, qos: nat, retain: Option<Publish>)
    requires i < |ops| && ops[i].Sub? && AllLegal(ops) && OfClient(who, id) && StaysOn(ops, i, id, topic)
    requires !Wild(Parse(topic)) && AsksFor(ops[i].topic, topic)
    requires Waits(Subscribe(Run(ops[..i]), ops[i].s, ops[i].topic).0, who, ops[i].topic, topic)
    ensures var r := Subscribed(Run(ops), true, topic, qos, retain).1; r.Some? && AnyOf(who, r.value)
  {
    assert ops[..i + 1][..i] == ops[..i];
    RunKeeps(ops, i, who, id, ops[i].topic, topic);
    RunSplit(ops, topic);
    PublishKeeps(Run(ops), true, topic, qos, retain, who, ops[i].topic, topic);
  }

  /**
    No lost delivery: in every run, with unsubscriptions of anybody, a public message
    reaches the client of every subscription to the topic or to a pattern that strictly
    matches it and that its client has not taken back since.
   */
  lemma NoLostDelivery(ops: seq<Op>, i: nat, topic: string, qos: nat, retain: Option<Publish>)
    requires AllLegal(ops) && !Wild(Parse(topic))
    requires i < |ops| && ops[i].Sub? && AsksFor(ops[i].topic, topic) && StaysOn(ops, i, ops[i].s.clientId, topic)
    ensures var r := Subscribed(Run(ops), true, topic, qos, retain).1; r.Some? && HasClient(r.value, ops[i].s.clientId)
  {
    var s := ops[i].s;
    RunSplit(ops[..i], topic);
    SubscribeWaits(Run(ops[..i]), s, ops[i].topic, topic);
    Answered(ops, i, Client(s.clientId), s.clientId, topic, qos, retain);
  }

  /** And it reaches the very session object, if no other one of the client stood in its place when it subscribed. */
  lemma NoLostSession(ops: seq<Op>, i: nat, topic: string, qos: nat, retain: Option<Publish>)
    requires AllLegal(ops) && !Wild(Parse(topic))
    requires i < |ops| && ops[i].Sub? && AsksFor(ops[i].topic, topic) && StaysOn(ops, i, ops[i].s.clientId, topic)
    requires Alone(Run(ops[..i]), ops[i].s, ops[i].topic, topic)
    ensures var r := Subscribed(Run(ops), true, topic, qos, retain).1; r.Some? && ops[i].s in r.value
  {
    var s := ops[i].s;
    RunSplit(ops[..i], topic);
    SubscribeWaits(Run(ops[..i]), s, ops[i].topic, topic);
    Answered(ops, i, iset{s}, s.clientId, topic, qos, retain);
  }

  /** A client that uses one session object throughout is always alone. */
  lemma OneSessionIsAlone(ops: seq<Op>, i: nat, topic: string)
    requires AllLegal(ops) && OneSessionPerClient(ops) && i < |ops| && ops[i].Sub?
    ensures Alone(Run(ops[..i]), ops[i].s, ops[i].topic, topic)
  {
    var before, b, s := ops[..i], Run(ops[..i]), ops[i].s;
    RunSound(before);
    forall x, f | (x, f) in Subscriptions(before) && x.clientId == s.clientId ensures x == s {
      var j :| 0 <= j < |before| && before[j].Sub? && (x, f) == (before[j].s, before[j].topic);
      assert ops[j] in ops && ops[i] in ops;
    }
    forall x | x in SessionsAt(b.patterns, Parse(ops[i].topic)) && x.clientId == s.clientId ensures x == s {
      assert SoundEntry(Subscriptions(before), Parse(ops[i].topic), x);
    }
    if topic in b.subTab { assert SoundCache(Subscriptions(before), topic, b.subTab[topic]); }
  }

  /** An unsubscription that touches the topic, even one from a pattern never subscribed to, ends a direct subscription. */
  lemma TouchingLoses(s: Session, filter: string, topic: string, qos: nat, retain: Option<Publish>)
    requires !Wild(Parse(topic)) && Touches(filter, topic)
    ensures Subscribed(Run([Sub(s, topic), Unsub(s, filter)]), true, topic, qos, retain).1 == Some([])
  {
    RunTwo(Sub(s, topic), Unsub(s, filter));
    var b := Subscribe(EMPTY, s, topic).0;
    assert b.subTab == map[topic := SubCache(None, Some(s), [])];
    var b' := Unsubscribe(b, s, filter);
    assert topic !in b'.subTab && Withdraw([], s) == [];
    assert b'.patterns == map[];
    NothingFound(Parse(topic));
  }
}
