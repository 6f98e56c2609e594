/**
  What holds over whole runs of the broker, unsubscribes included: the tables stay in
  order, and nobody is returned by `subscribed` who did not ask for the topic.
 */
module BrokerRuns {
  import opened Prelude
  import opened SortedSearch
  import opened TopicPaths
  import opened PatternRegistry
  import opened BrokerModel

  type History = set<(Session, string)>

  /** The subscriptions made in a run. */
  ghost function Subscriptions(ops: seq<Op>): History {
    set i | 0 <= i < |ops| && ops[i].Sub? :: (ops[i].s, ops[i].topic)
  }

  lemma RunTwo(first: Op, second: Op)
    ensures Run([first]) == Step(EMPTY, first) && Run([first, second]) == Step(Step(EMPTY, first), second)
  {
    assert [first][..0] == [] && [first, second][..1] == [first];
    assert Run([]) == EMPTY;
  }

  ghost predicate AllLegal(ops: seq<Op>) { forall op :: op in ops ==> Legal(op) }

  // ---- Nobody is returned without a subscription that covers the topic ----

  /** The filter is the topic itself, or a pattern that one of the two matchers accepts. */
  ghost predicate Covers(filter: string, topic: string) {
    || filter == topic
    || (Wild(Parse(filter))
        && (IsMatch(Parse(filter), Parse(topic)) || StrictMatch(Parse(filter), Parse(topic))))
  }

  ghost predicate Granted(hist: History, s: Session, topic: string) {
    exists filter :: (s, filter) in hist && Covers(filter, topic)
  }

  ghost predicate SoundCache(hist: History, topic: string, c: SubCache) {
    && !Wild(Parse(topic))
    && (c.first.Some? ==> c.sessions == [])
    && forall s :: s in Members(c) ==> Granted(hist, s, topic)
  }

  ghost predicate SoundEntry(hist: History, p: Path, s: Session) {
    Wild(p) && exists filter :: (s, filter) in hist && Parse(filter) == p
  }

  ghost predicate SoundPatterns(hist: History, reg: Registry) {
    forall p, s :: s in SessionsAt(reg, p) ==> SoundEntry(hist, p, s)
  }

  ghost predicate SoundPublics(publics: seq<(string, nat)>) {
    StrictlySorted(Topics(publics)) && forall t :: t in Topics(publics) ==> !Wild(Parse(t))
  }

  ghost predicate SoundTab(hist: History, subTab: map<string, SubCache>) {
    forall t :: t in subTab ==> SoundCache(hist, t, subTab[t])
  }

  /** The invariant of every run, unsubscribes included. */
  ghost predicate Sound(hist: History, b: Tables) {
    SoundTab(hist, b.subTab) && SoundPatterns(hist, b.patterns) && SoundPublics(b.publics)
  }

  lemma FoundIsGranted(hist: History, reg: Registry, topic: string)
    requires SoundPatterns(hist, reg) && !Wild(Parse(topic))
    ensures forall s :: s in Lookup(reg, Parse(topic)).value ==> Granted(hist, s, topic)
  {
    forall s | s in Lookup(reg, Parse(topic)).value ensures Granted(hist, s, topic) {
      LookupMembers(reg, Parse(topic), s);
      var p :| p in reg && s in reg[p] && StrictMatch(p, Parse(topic));
      assert s in SessionsAt(reg, p);
      var filter :| (s, filter) in hist && Parse(filter) == p;
    }
  }

  lemma AnnounceSound(publics: seq<(string, nat)>, topic: string, qos: nat)
    requires SoundPublics(publics) && !Wild(Parse(topic))
    ensures SoundPublics(Announce(publics, topic, qos).0)
    ensures forall t :: t in Topics(Announce(publics, topic, qos).0) <==> t in Topics(publics) || t == topic
    ensures Announce(publics, topic, qos).1 <==> topic !in Topics(publics)
  {
    var keys := Topics(publics);
    SearchSorted(keys, topic);
    match Search(keys, topic) {
      case At(_) =>
      case Missing(i) =>
        InsertKeepsSorted(keys, topic, i);
        assert Topics(InsertAt(publics, i, (topic, qos))) == InsertAt(keys, i, topic);
    }
  }

  lemma ServeSound(hist: History, topic: string, cache: Option<SubCache>, found: seq<Session>, isNew: bool, retain: Option<Publish>)
    requires !Wild(Parse(topic)) && (cache.Some? ==> SoundCache(hist, topic, cache.value))
    requires forall s :: s in found ==> Granted(hist, s, topic)
    ensures SoundCache(hist, topic, Serve(cache, Some(found), isNew, retain).value)
  {
  }

  lemma SubscribedSound(hist: History, b: Tables, isPublic: bool, topic: string, qos: nat, retain: Option<Publish>)
    requires Sound(hist, b) && (isPublic ==> !Wild(Parse(topic)))
    ensures Sound(hist, Subscribed(b, isPublic, topic, qos, retain).0)
    ensures var r := Subscribed(b, isPublic, topic, qos, retain).1;
            r.Some? ==> forall s :: s in r.value ==> Granted(hist, s, topic)
  {
    if isPublic { AnnounceSound(b.publics, topic, qos); }
    if topic in b.subTab { assert SoundCache(hist, topic, b.subTab[topic]); }
    if !Wild(Parse(topic)) {
      var isNew := isPublic && Announce(b.publics, topic, qos).1;
      FoundIsGranted(hist, b.patterns, topic);
      ServeSound(hist, topic, CacheOf(b.subTab, topic), Lookup(b.patterns, Parse(topic)).value, isNew, retain);
    }
  }

  lemma SubscribeTopicSound(hist: History, b: Tables, s: Session, topic: string)
    requires Sound(hist, b) && !Wild(Parse(topic)) && Granted(hist, s, topic)
    ensures Sound(hist, SubscribeTopic(b, s, topic).0)
  {
    var tab := SubscribeTopic(b, s, topic).0.subTab;
    if topic in b.subTab { assert SoundCache(hist, topic, b.subTab[topic]); }
    assert SoundCache(hist, topic, tab[topic]);
  }

  lemma {:induction false} SubscribeAllSound(hist: History, b: Tables, s: Session, keys: seq<string>)
    requires Sound(hist, b)
    requires forall t :: t in keys ==> !Wild(Parse(t)) && Granted(hist, s, t)
    ensures Sound(hist, SubscribeAll(b, s, keys).0)
    ensures SubscribeAll(b, s, keys).0.patterns == b.patterns && SubscribeAll(b, s, keys).0.publics == b.publics
    decreases |keys|
  {
    if keys != [] {
      var last := |keys| - 1;
      SubscribeAllSound(hist, b, s, keys[..last]);
      SubscribeTopicSound(hist, SubscribeAll(b, s, keys[..last]).0, s, keys[last]);
    }
  }

  lemma SubscribeSound(hist: History, b: Tables, s: Session, topic: string)
    requires Sound(hist, b) && (s, topic) in hist
    ensures Sound(hist, Subscribe(b, s, topic).0)
  {
    if Wild(Parse(topic)) {
      var keys := MatchedPublics(b.publics, Parse(topic));
      var b1 := b.(topics := SaveTopic(SaveTopics(b.topics, s, keys), s, topic));
      forall t | t in keys ensures !Wild(Parse(t)) && Granted(hist, s, t) {
        var i :| 0 <= i < |b.publics| && b.publics[i].0 == t && IsMatch(Parse(topic), Parse(t));
        assert Topics(b.publics)[i] == t;
        assert Covers(topic, t);
      }
      SubscribeAllSound(hist, b1, s, keys);
      assert SoundEntry(hist, Parse(topic), s);
    } else {
      assert Covers(topic, topic);
      SubscribeTopicSound(hist, b, s, topic);
    }
  }

  lemma LeaveSound(hist: History, topic: string, c: SubCache, s: Session)
    requires SoundCache(hist, topic, c)
    ensures !Leave(c, s).1 ==> SoundCache(hist, topic, Leave(c, s).0)
  {
  }

  lemma UnsubscribeSound(hist: History, b: Tables, s: Session, topic: string)
    requires Sound(hist, b)
    ensures Sound(hist, Unsubscribe(b, s, topic))
  {
    var b' := Unsubscribe(b, s, topic);
    forall t | t in b'.subTab ensures SoundCache(hist, t, b'.subTab[t]) {
      LeaveSound(hist, t, b.subTab[t], s);
      LeavesOrStays(b, s, topic, t);
    }
  }

  /** A topic that stays cached has been left, or is as it was. */
  lemma LeavesOrStays(b: Tables, s: Session, topic: string, t: string)
    requires t in Unsubscribe(b, s, topic).subTab
    ensures t in b.subTab
    ensures var c := Unsubscribe(b, s, topic).subTab[t];
            c == b.subTab[t] || (c, false) == Leave(b.subTab[t], s)
  {
  }

  lemma {:induction false} UnsubscribeEachSound(hist: History, b: Tables, s: Session, topics: seq<string>)
    requires Sound(hist, b)
    ensures Sound(hist, UnsubscribeEach(b, s, topics))
    decreases |topics|
  {
    if topics != [] {
      UnsubscribeEachSound(hist, b, s, topics[..|topics| - 1]);
      UnsubscribeSound(hist, UnsubscribeEach(b, s, topics[..|topics| - 1]), s, topics[|topics| - 1]);
    }
  }

  lemma MoreHistory(hist: History, more: History, b: Tables)
    requires hist <= more && Sound(hist, b)
    ensures Sound(more, b)
  {
    forall s, t | Granted(hist, s, t) ensures Granted(more, s, t) {
      var f :| (s, f) in hist && Covers(f, t);
    }
    forall p, s | SoundEntry(hist, p, s) ensures SoundEntry(more, p, s) {
      var f :| (s, f) in hist && Parse(f) == p;
    }
    forall t | t in b.subTab ensures SoundCache(more, t, b.subTab[t]) {
      assert SoundCache(hist, t, b.subTab[t]);
    }
  }

  lemma SubscriptionsGrow(ops: seq<Op>)
    requires ops != []
    ensures Subscriptions(ops) == Subscriptions(ops[..|ops| - 1])
              + (if ops[|ops| - 1].Sub? then {(ops[|ops| - 1].s, ops[|ops| - 1].topic)} else {})
  {
    var before, op := ops[..|ops| - 1], ops[|ops| - 1];
    forall e | e in Subscriptions(ops) && !(op.Sub? && e == (op.s, op.topic)) ensures e in Subscriptions(before) {
      var i :| 0 <= i < |ops| && ops[i].Sub? && e == (ops[i].s, ops[i].topic);
      assert before[i] == ops[i];
    }
    forall e | e in Subscriptions(before) ensures e in Subscriptions(ops) {
      var i :| 0 <= i < |before| && before[i].Sub? && e == (before[i].s, before[i].topic);
      assert ops[i] == before[i];
    }
    if op.Sub? { assert (op.s, op.topic) in Subscriptions(ops); }
  }

  /** Every run keeps the tables sound. */
  lemma {:induction false} RunSound(ops: seq<Op>)
    requires AllLegal(ops)
    ensures Sound(Subscriptions(ops), Run(ops))
    decreases |ops|
  {
    if ops == [] {
      assert Topics([]) == [];
    } else {
      var before, op := ops[..|ops| - 1], ops[|ops| - 1];
      RunSound(before);
      SubscriptionsGrow(ops);
      var hist, b := Subscriptions(ops), Run(before);
      MoreHistory(Subscriptions(before), hist, b);
      assert Legal(op);
      match op {
        case Sub(s, topic) => SubscribeSound(hist, b, s, topic);
        case Pub(isPublic, topic, qos, retain) => SubscribedSound(hist, b, isPublic, topic, qos, retain);
        case Unsub(s, topic) => UnsubscribeSound(hist, b, s, topic);
        case UnsubAll(s) =>
          if s in b.topics { UnsubscribeEachSound(hist, b.(topics := b.topics - {s}), s, b.topics[s]); }
      }
    }
  }

  ghost predicate AskedFor(ops: seq<Op>, s: Session, topic: string) {
    exists i :: 0 <= i < |ops| && ops[i].Sub? && ops[i].s == s && Covers(ops[i].topic, topic)
  }

  /** Whoever is returned for a topic has subscribed to it, or to a pattern that matches it. */
  lemma OnlySubscribers(ops: seq<Op>, isPublic: bool, topic: string, qos: nat, retain: Option<Publish>, s: Session)
    requires AllLegal(ops) && (isPublic ==> !Wild(Parse(topic)))
    ensures var r := Subscribed(Run(ops), isPublic, topic, qos, retain).1;
            r.Some? && s in r.value ==> AskedFor(ops, s, topic)
  {
    RunSound(ops);
    SubscribedSound(Subscriptions(ops), Run(ops), isPublic, topic, qos, retain);
    var r := Subscribed(Run(ops), isPublic, topic, qos, retain).1;
    if r.Some? && s in r.value {
      var filter :| (s, filter) in Subscriptions(ops) && Covers(filter, topic);
    }
  }

  /** One session object per client id in the whole run. */
  ghost predicate OneSessionPerClient(ops: seq<Op>) {
    forall x, y :: x in ops && y in ops && !x.Pub? && !y.Pub? && x.s.clientId == y.s.clientId ==> x.s == y.s
  }
}
