/**
  The retained message of a topic over whole runs of the broker: it lives in the topic's
  cache, so it is lost when an unsubscription drops the cache, and exactly then.
 */
module BrokerRetained {
  import opened Prelude
  import opened TopicPaths
  import opened PatternRegistry
  import opened BrokerModel
  import opened BrokerRuns

  /** The latest message published on a topic with the retain flag. */
  ghost function LastRetained(ops: seq<Op>, topic: string): Option<Publish> {
    if ops == [] then None
    else if Retains(ops[|ops| - 1], topic) then ops[|ops| - 1].retain
    else LastRetained(ops[..|ops| - 1], topic)
  }

  predicate Retains(op: Op, topic: string) { op.Pub? && op.topic == topic && op.retain.Some? }

  /** A step takes the topic out of the subscription table. */
  predicate Drops(b: Tables, op: Op, topic: string) { topic in b.subTab && topic !in Step(b, op).subTab }

  /** The topic was dropped after the latest retained message on it. */
  ghost predicate DroppedSince(ops: seq<Op>, topic: string) {
    && ops != []
    && !Retains(ops[|ops| - 1], topic)
    && (DroppedSince(ops[..|ops| - 1], topic) || Drops(Run(ops[..|ops| - 1]), ops[|ops| - 1], topic))
  }

  /** The message that is still kept. */
  ghost function Kept(ops: seq<Op>, topic: string): Option<Publish> {
    if DroppedSince(ops, topic) then None else LastRetained(ops, topic)
  }

  ghost function RetainOf(subTab: map<string, SubCache>, topic: string): Option<Publish> {
    if topic in subTab then subTab[topic].retain else None
  }

  // ---- What each operation does to a retained message ----

  lemma {:induction false} SubscribeAllRetains(b: Tables, s: Session, keys: seq<string>)
    ensures forall t :: RetainOf(SubscribeAll(b, s, keys).0.subTab, t) == RetainOf(b.subTab, t)
    ensures b.subTab.Keys <= SubscribeAll(b, s, keys).0.subTab.Keys
    ensures SubscribeAll(b, s, keys).1 == Retained(b.subTab, keys)
    decreases |keys|
  {
    if keys != [] {
      var front, last := keys[..|keys| - 1], keys[|keys| - 1];
      SubscribeAllRetains(b, s, front);
      SubscribeTopicRetains(SubscribeAll(b, s, front).0, s, last);
    }
  }

  lemma SubscribeTopicRetains(b: Tables, s: Session, key: string)
    ensures var (b', retain) := SubscribeTopic(b, s, key);
            && (forall t :: RetainOf(b'.subTab, t) == RetainOf(b.subTab, t))
            && b.subTab.Keys <= b'.subTab.Keys && retain == RetainOf(b.subTab, key)
  {
  }

  /** The retained messages of a list of topics, in its order. */
  ghost function Retained(subTab: map<string, SubCache>, keys: seq<string>): seq<Publish> {
    if keys == [] then []
    else
      var kept, last := Retained(subTab, keys[..|keys| - 1]), RetainOf(subTab, keys[|keys| - 1]);
      if last.Some? then kept + [last.value] else kept
  }

  lemma SubscribeRetains(b: Tables, s: Session, filter: string, topic: string)
    ensures RetainOf(Subscribe(b, s, filter).0.subTab, topic) == RetainOf(b.subTab, topic)
    ensures !Drops(b, Sub(s, filter), topic)
  {
    if Wild(Parse(filter)) {
      var keys := MatchedPublics(b.publics, Parse(filter));
      SubscribeAllRetains(b.(topics := SaveTopic(SaveTopics(b.topics, s, keys), s, filter)), s, keys);
    }
  }

  lemma SubscribedRetains(b: Tables, isPublic: bool, published: string, qos: nat, retain: Option<Publish>, topic: string)
    requires !Wild(Parse(topic))
    ensures RetainOf(Subscribed(b, isPublic, published, qos, retain).0.subTab, topic)
         == if published == topic && retain.Some? then retain else RetainOf(b.subTab, topic)
    ensures !Drops(b, Pub(isPublic, published, qos, retain), topic)
  {
  }

  lemma UnsubscribeRetains(b: Tables, s: Session, filter: string, topic: string)
    ensures RetainOf(Unsubscribe(b, s, filter).subTab, topic)
         == if Drops(b, Unsub(s, filter), topic) then None else RetainOf(b.subTab, topic)
    ensures Unsubscribe(b, s, filter).subTab.Keys <= b.subTab.Keys
  {
    if topic in Unsubscribe(b, s, filter).subTab { LeavesOrStays(b, s, filter, topic); }
  }

  lemma {:induction false} UnsubscribeEachRetains(b: Tables, s: Session, keys: seq<string>, topic: string)
    ensures var tab := UnsubscribeEach(b, s, keys).subTab;
            && tab.Keys <= b.subTab.Keys
            && RetainOf(tab, topic) == if topic in b.subTab && topic !in tab then None else RetainOf(b.subTab, topic)
    decreases |keys|
  {
    if keys != [] {
      var front, last := keys[..|keys| - 1], keys[|keys| - 1];
      UnsubscribeEachRetains(b, s, front, topic);
      UnsubscribeRetains(UnsubscribeEach(b, s, front), s, last, topic);
    }
  }

  // ---- Runs ----

  /** In every run, unsubscribes included, the cache holds the last retained message unless the topic was dropped since. */
  lemma {:induction false} RunRetains(ops: seq<Op>, topic: string)
    requires !Wild(Parse(topic))
    ensures RetainOf(Run(ops).subTab, topic) == Kept(ops, topic)
    decreases |ops|
  {
    if ops != [] {
      var before, op := ops[..|ops| - 1], ops[|ops| - 1];
      RunRetains(before, topic);
      var b := Run(before);
      match op {
        case Sub(s, filter) => SubscribeRetains(b, s, filter, topic);
        case Pub(isPublic, t, qos, retain) => SubscribedRetains(b, isPublic, t, qos, retain, topic);
        case Unsub(s, filter) => UnsubscribeRetains(b, s, filter, topic);
        case UnsubAll(s) =>
          if s in b.topics { UnsubscribeEachRetains(b.(topics := b.topics - {s}), s, b.topics[s], topic); }
      }
    }
  }

  /** A new subscriber is handed the last retained message exactly if the topic was not dropped since, and else nothing. */
  lemma SubscriberGetsRetained(ops: seq<Op>, s: Session, topic: string)
    requires !Wild(Parse(topic))
    ensures var last := LastRetained(ops, topic);
            Subscribe(Run(ops), s, topic).1 ==
              if last.Some? && !DroppedSince(ops, topic) then Some(Single(last.value)) else None
  {
    RunRetains(ops, topic);
  }

  ghost function AllKept(ops: seq<Op>, keys: seq<string>): seq<Publish> {
    if keys == [] then []
    else
      var kept, last := AllKept(ops, keys[..|keys| - 1]), Kept(ops, keys[|keys| - 1]);
      if last.Some? then kept + [last.value] else kept
  }

  lemma {:induction false} RunRetainsAll(ops: seq<Op>, keys: seq<string>)
    requires forall t :: t in keys ==> !Wild(Parse(t))
    ensures Retained(Run(ops).subTab, keys) == AllKept(ops, keys)
    decreases |keys|
  {
    if keys != [] {
      RunRetainsAll(ops, keys[..|keys| - 1]);
      RunRetains(ops, keys[|keys| - 1]);
    }
  }

  /** A new pattern subscriber is handed what is kept for the matching public topics, in their order. */
  lemma PatternSubscriberGetsRetained(ops: seq<Op>, s: Session, filter: string)
    requires AllLegal(ops) && Wild(Parse(filter))
    ensures var kept := AllKept(ops, MatchedPublics(Run(ops).publics, Parse(filter)));
            Subscribe(Run(ops), s, filter).1 == if kept == [] then None else Some(Multi(kept))
  {
    var b := Run(ops);
    var keys := MatchedPublics(b.publics, Parse(filter));
    RunSound(ops);
    forall t | t in keys ensures !Wild(Parse(t)) {
      var i :| 0 <= i < |b.publics| && b.publics[i].0 == t && IsMatch(Parse(filter), Parse(t));
      assert Topics(b.publics)[i] == t;
    }
    RunRetainsAll(ops, keys);
    SubscribeAllRetains(b.(topics := SaveTopic(SaveTopics(b.topics, s, keys), s, filter)), s, keys);
  }

  /** The latest retained messages of a list of topics, in its order. */
  ghost function AllLastRetained(ops: seq<Op>, keys: seq<string>): seq<Publish> {
    if keys == [] then []
    else
      var kept, last := AllLastRetained(ops, keys[..|keys| - 1]), LastRetained(ops, keys[|keys| - 1]);
      if last.Some? then kept + [last.value] else kept
  }

  ghost predicate StillKept(ops: seq<Op>, topic: string) {
    LastRetained(ops, topic).Some? ==> !DroppedSince(ops, topic)
  }

  /** Those are all the last retained messages exactly if none of the topics that had one was dropped since. */
  lemma {:induction false} AllKeptIff(ops: seq<Op>, keys: seq<string>)
    ensures |AllKept(ops, keys)| <= |AllLastRetained(ops, keys)|
    ensures AllKept(ops, keys) == AllLastRetained(ops, keys) <==> forall t :: t in keys ==> StillKept(ops, t)
    decreases |keys|
  {
    if keys != [] {
      var front, last := keys[..|keys| - 1], keys[|keys| - 1];
      assert keys == front + [last];
      AllKeptIff(ops, front);
      var kept, all := AllKept(ops, front), AllLastRetained(ops, front);
      if LastRetained(ops, last).Some? {
        if StillKept(ops, last) {
          assert AllKept(ops, keys)[..|AllKept(ops, keys)| - 1] == kept;
          assert AllLastRetained(ops, keys)[..|all|] == all;
        } else {
          assert |AllKept(ops, keys)| < |AllLastRetained(ops, keys)|;
        }
      }
    }
  }

  // ---- When an unsubscription drops a topic ----

  /** Nobody is left in the cache when the session leaves. */
  predicate Empties(c: SubCache, s: Session) {
    match c.first
    case Some(x) => x == s
    case None => Withdraw(c.sessions, s) == []
  }

  /** It names the topic or is a pattern that `is_match` accepts for it, and nobody is left. */
  lemma UnsubscribeDropsIff(b: Tables, s: Session, filter: string, topic: string)
    requires !Wild(Parse(topic))
    ensures Drops(b, Unsub(s, filter), topic) <==>
              && topic in b.subTab && Empties(b.subTab[topic], s)
              && (filter == topic || (Wild(Parse(filter)) && IsMatch(Parse(filter), Parse(topic))))
  {
  }

  /** One of a list of unsubscriptions drops the topic. */
  ghost predicate DropsAlong(b: Tables, s: Session, keys: seq<string>, topic: string) {
    && keys != []
    && var front, last := keys[..|keys| - 1], keys[|keys| - 1];
       DropsAlong(b, s, front, topic) || Drops(UnsubscribeEach(b, s, front), Unsub(s, last), topic)
  }

  /** Unsubscribing from everything drops a topic exactly if the unsubscription from one of the recorded filters does. */
  lemma UnsubscribeAllDropsIff(b: Tables, s: Session, topic: string)
    ensures Drops(b, UnsubAll(s), topic) <==>
              s in b.topics && DropsAlong(b.(topics := b.topics - {s}), s, b.topics[s], topic)
  {
    if s in b.topics { EachDropsIff(b.(topics := b.topics - {s}), s, b.topics[s], topic); }
  }

  lemma {:induction false} EachDropsIff(b: Tables, s: Session, keys: seq<string>, topic: string)
    ensures topic in b.subTab && topic !in UnsubscribeEach(b, s, keys).subTab <==> DropsAlong(b, s, keys, topic)
    decreases |keys|
  {
    if keys != [] {
      var front, last := keys[..|keys| - 1], keys[|keys| - 1];
      EachDropsIff(b, s, front, topic);
      UnsubscribeEachRetains(b, s, front, topic);
      UnsubscribeRetains(UnsubscribeEach(b, s, front), s, last, topic);
    }
  }

  /** A client that never subscribed erases a retained message that nobody is subscribed to. */
  lemma StrangerErasesRetained(p: Publish, s: Session, other: Session, topic: string)
    requires !Wild(Parse(topic))
    ensures var ops := [Pub(true, topic, 0, Some(p)), Unsub(s, topic)];
            LastRetained(ops, topic) == Some(p) && Subscribe(Run(ops), other, topic).1 == None
  {
    var ops := [Pub(true, topic, 0, Some(p)), Unsub(s, topic)];
    RunTwo(ops[0], ops[1]);
    assert ops[..1] == [ops[0]] && ops[..1][..0] == [];
    var b := Run([ops[0]]);
    NothingFound(Parse(topic));
    assert b.subTab[topic] == SubCache(Some(p), None, []);
    assert Withdraw([], s) == [];
    UnsubscribeDropsIff(b, s, topic, topic);
    assert DroppedSince(ops, topic);
    SubscriberGetsRetained(ops, other, topic);
  }
}
