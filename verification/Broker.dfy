/**
  The broker's tables, changed in place by its operations, each operation proved equal
  to its function in `BrokerModel`; what runs of those functions keep is in `BrokerRuns`,
  `BrokerDelivery`, `BrokerRetained` and `BrokerRefinement`.
 */
module Broker {
  import opened Prelude
  import opened SortedSearch
  import opened TopicPaths
  import opened PatternRegistry
  import opened PathTrees
  import opened BrokerModel
  import Model = BrokerModel

  class MqttBroker {
    var subTab: map<string, SubCache>
    var patterns: PathTree
    var publics: seq<(string, nat)>
    var topics: map<Session, seq<string>>

    ghost predicate Valid()
      reads this, patterns, patterns.repr
    {
      patterns.Valid()
    }

    /** No public topic that the filter accepts has wildcards: subscribing to one would call itself without end. */
    ghost predicate PlainMatches(filter: Path)
      reads this`publics
    {
      forall t :: t in MatchedPublics(publics, filter) ==> !Wild(Parse(t))
    }

    ghost function State(): Tables
      reads this, patterns
    {
      Tables(subTab, patterns.Registry(), publics, topics)
    }

    constructor ()
      ensures Valid() && State() == EMPTY
    {
      subTab, publics, topics := map[], [], map[];
      patterns := new PathTree();
    }

    /** Put a public topic in its place in the list, unless it is there. */
    method RecordPublic(topic: string, qos: nat) returns (isNew: bool)
      requires Valid()
      modifies this`publics
      ensures Valid() && (publics, isNew) == Announce(old(publics), topic, qos)
    {
      var found := BinarySearch(Topics(publics), topic);
      isNew := found.Missing?;
      if isNew {
        publics := InsertAt(publics, found.index, (topic, qos));
      }
    }

    /** The sessions subscribed to a topic; a public topic is recorded, and a missing cache is filled. */
    method Subscribed(isPublic: bool, topic: string, qos: nat, retain: Option<Publish>)
      returns (r: Option<seq<Session>>)
      requires Valid()
      modifies this`publics, this`subTab
      ensures Valid() && (State(), r) == Model.Subscribed(old(State()), isPublic, topic, qos, retain)
    {
      var isNew := false;
      if isPublic {
        isNew := RecordPublic(topic, qos);
      }
      r := ServeTopic(topic, isNew, retain);
    }

    /** Answer from the topic's cache, or fill it from the patterns. */
    method ServeTopic(topic: string, isNew: bool, retain: Option<Publish>) returns (r: Option<seq<Session>>)
      requires Valid()
      modifies this`subTab
      ensures var cache := Serve(CacheOf(old(subTab), topic), Lookup(patterns.Registry(), Parse(topic)), isNew, retain);
              && subTab == (if cache.Some? then old(subTab)[topic := cache.value] else old(subTab))
              && r == (if cache.Some? then Some(Members(cache.value)) else None)
    {
      if topic in subTab {
        var cache := ServeCached(subTab[topic], topic, isNew, retain);
        subTab := subTab[topic := cache];
        r := Some(if cache.first.Some? then [cache.first.value] else cache.sessions);
      } else {
        r := patterns.Find(Parse(topic));
        if r.Some? {
          var cache := FillCache(r.value, retain);
          subTab := subTab[topic := cache];
        }
      }
    }

    /** Keep the retained message, and consult the patterns once a topic becomes public. */
    method ServeCached(cache: SubCache, topic: string, isNew: bool, retain: Option<Publish>) returns (c: SubCache)
      requires Valid()
      ensures Some(c) == Serve(Some(cache), Lookup(patterns.Registry(), Parse(topic)), isNew, retain)
    {
      c := cache;
      if retain.Some? {
        c := c.(retain := retain);
      }
      if isNew {
        var sessions := patterns.Find(Parse(topic));
        if sessions.Some? {
          c := MergeInto(c, sessions.value);
        }
      }
    }

    static method MergeInto(cache: SubCache, found: seq<Session>) returns (c: SubCache)
      ensures c == Merge(cache, found) && c.first.None? && c.retain == cache.retain
      ensures multiset(Members(c)) == multiset(Members(cache)) + multiset(found)
    {
      match cache.first {
        case None => c := cache.(sessions := cache.sessions + found);
        case Some(session) => c := cache.(first := None, sessions := found + [session]);
      }
    }

    /** A new cache: nobody, a lone first subscriber, or a list pushed one by one. */
    static method FillCache(found: seq<Session>, retain: Option<Publish>) returns (c: SubCache)
      ensures c == FreshCache(found, retain) && Members(c) == found
    {
      if |found| == 0 {
        c := SubCache(retain, None, []);
      } else if |found| == 1 {
        c := SubCache(retain, Some(found[0]), []);
      } else {
        c := SubCache(retain, None, []);
        var i := 0;
        while i < |found|
          invariant 0 <= i <= |found| && c == SubCache(retain, None, found[..i])
        {
          c := c.(sessions := c.sessions + [found[i]]);
          i := i + 1;
        }
      }
    }

    method SaveTopic(s: Session, topic: string)
      modifies this`topics
      ensures topics == Model.SaveTopic(old(topics), s, topic)
    {
      if s in topics {
        topics := topics[s := topics[s] + [topic]];
      } else {
        topics := topics[s := [topic]];
      }
    }

    method SubscribeTopic(s: Session, topic: string) returns (retain: Option<Publish>)
      requires Valid() && !Wild(Parse(topic))
      modifies this`subTab, this`topics
      ensures Valid() && (State(), retain) == Model.SubscribeTopic(old(State()), s, topic)
    {
      if topic !in subTab {
        subTab := subTab[topic := SubCache(None, Some(s), [])];
        SaveTopic(s, topic);
        return None;
      }
      var cache := subTab[topic];
      if cache.first.Some? {
        cache := cache.(first := None, sessions := cache.sessions + [cache.first.value]);
      }
      var found := BinarySearch(ClientIds(cache.sessions), s.clientId);
      if found.Missing? {
        SaveTopic(s, topic);
        cache := cache.(sessions := InsertAt(cache.sessions, found.index, s));
      }
      subTab := subTab[topic := cache];
      retain := cache.retain;
    }

    /** Match the public topics and put them on the session's record. */
    method MatchPublics(s: Session, filter: Path) returns (keys: seq<string>)
      requires Valid()
      modifies this`topics
      ensures Valid() && keys == MatchedPublics(publics, filter) && topics == SaveTopics(old(topics), s, keys)
    {
      keys := [];
      var i := 0;
      while i < |publics|
        invariant 0 <= i <= |publics|
        invariant keys == MatchedPublics(publics[..i], filter) && topics == SaveTopics(old(topics), s, keys)
      {
        var key := publics[i].0;
        assert publics[..i + 1][..i] == publics[..i];
        var matches := CheckMatch(filter, Parse(key));
        if matches {
          assert (keys + [key])[..|keys|] == keys;
          keys := keys + [key];
          SaveTopic(s, key);
        }
        i := i + 1;
      }
      assert publics[..i] == publics;
    }

    /** Subscribe to each of the matched public topics. */
    method SubscribeKeys(s: Session, keys: seq<string>) returns (kept: seq<Publish>)
      requires Valid() && forall t :: t in keys ==> !Wild(Parse(t))
      modifies this`subTab, this`topics
      ensures Valid() && (State(), kept) == SubscribeAll(old(State()), s, keys)
    {
      kept := [];
      var i := 0;
      while i < |keys|
        invariant 0 <= i <= |keys| && Valid()
        invariant (State(), kept) == SubscribeAll(old(State()), s, keys[..i])
      {
        assert keys[..i + 1][..i] == keys[..i];
        var retain := SubscribeTopic(s, keys[i]);
        if retain.Some? {
          kept := kept + [retain.value];
        }
        i := i + 1;
      }
      assert keys[..i] == keys;
    }

    /** Subscribe to the public topics a pattern matches, and record them and the pattern. */
    method JoinPublics(s: Session, topic: string) returns (kept: seq<Publish>)
      requires Valid() && PlainMatches(Parse(topic))
      modifies this`subTab, this`topics
      ensures Valid()
      ensures var keys := MatchedPublics(publics, Parse(topic));
              var record := Model.SaveTopic(SaveTopics(old(topics), s, keys), s, topic);
              (State(), kept) == SubscribeAll(old(State()).(topics := record), s, keys)
    {
      var keys := MatchPublics(s, Parse(topic));
      SaveTopic(s, topic);
      ghost var record := Model.SaveTopic(SaveTopics(old(topics), s, keys), s, topic);
      assert State() == old(State()).(topics := record);
      kept := SubscribeKeys(s, keys);
    }

    method SubscribePattern(s: Session, topic: string) returns (kept: seq<Publish>)
      requires Valid() && Wild(Parse(topic)) && PlainMatches(Parse(topic))
      modifies this`subTab, this`topics, patterns, patterns.repr
      ensures Valid() && fresh(patterns.repr - old(patterns.repr))
      ensures (State(), kept) == Model.SubscribePattern(old(State()), s, topic)
    {
      kept := JoinPublics(s, topic);
      var _ := patterns.Insert(Parse(topic), s);
    }

    method Subscribe(s: Session, topic: string) returns (r: Option<Retain>)
      requires Valid() && (Wild(Parse(topic)) ==> PlainMatches(Parse(topic)))
      modifies this`subTab, this`topics, patterns, patterns.repr
      ensures Valid() && fresh(patterns.repr - old(patterns.repr))
      ensures (State(), r) == Model.Subscribe(old(State()), s, topic)
    {
      if Wild(Parse(topic)) {
        var kept := SubscribePattern(s, topic);
        r := if kept == [] then None else Some(Multi(kept));
      } else {
        var retain := SubscribeTopic(s, topic);
        r := if retain.Some? then Some(Single(retain.value)) else None;
      }
    }

    /** Take a session out of one cache; `drop` says that the topic has nobody left. */
    static method LeaveCache(cache: SubCache, s: Session) returns (c: SubCache, drop: bool)
      ensures (c, drop) == Leave(cache, s)
    {
      c, drop := cache, false;
      if c.first.Some? {
        if c.first.value == s {
          c, drop := c.(first := None), true;
        }
      } else {
        var found := BinarySearch(ClientIds(c.sessions), s.clientId);
        if found.At? {
          c := c.(sessions := RemoveAt(c.sessions, found.index));
        }
        drop := c.sessions == [];
      }
    }

    static lemma LeaveMatchedParts(before: map<string, SubCache>, tab: map<string, SubCache>, drops: set<string>,
                                   s: Session, filter: Path)
      requires tab.Keys == before.Keys
      requires forall t :: t in before ==> tab[t] == LeaveIf(before[t], s, filter, t).0
      requires forall t :: t in before ==> (t in drops <==> LeaveIf(before[t], s, filter, t).1)
      ensures tab - drops == LeaveMatched(before, s, filter)
    {
    }

    /** Leave every cached topic the filter matches, then drop the topics with nobody left. */
    method LeaveAllMatched(s: Session, filter: Path)
      modifies this`subTab
      ensures subTab == LeaveMatched(old(subTab), s, filter)
    {
      var before, tab, todo, drops := subTab, subTab, subTab.Keys, {};
      while todo != {}
        invariant todo <= before.Keys && tab.Keys == before.Keys
        invariant forall t :: t in todo ==> tab[t] == before[t]
        invariant forall t :: t in before && t !in todo ==> tab[t] == LeaveIf(before[t], s, filter, t).0
        invariant forall t :: t in drops <==> t in before && t !in todo && LeaveIf(before[t], s, filter, t).1
        decreases |todo|
      {
        var t :| t in todo;
        var c, drop := LeaveOne(tab[t], s, filter, t);
        tab := tab[t := c];
        if drop {
          drops := drops + {t};
        }
        todo := todo - {t};
      }
      LeaveMatchedParts(before, tab, drops, s, filter);
      subTab := tab - drops;
    }

    static method LeaveOne(cache: SubCache, s: Session, filter: Path, topic: string) returns (c: SubCache, drop: bool)
      ensures (c, drop) == LeaveIf(cache, s, filter, topic)
    {
      c, drop := cache, false;
      var matches := CheckMatch(filter, Parse(topic));
      if matches {
        c, drop := LeaveCache(cache, s);
      }
    }

    method Unsubscribe(s: Session, topic: string)
      requires Valid()
      modifies this`subTab, patterns, patterns.repr
      ensures Valid() && patterns.repr == old(patterns.repr)
      ensures State() == Model.Unsubscribe(old(State()), s, topic)
    {
      if Wild(Parse(topic)) {
        LeaveAllMatched(s, Parse(topic));
        var _ := patterns.Remove(Parse(topic), s);
      } else if topic in subTab {
        var c, drop := LeaveCache(subTab[topic], s);
        if drop {
          subTab := subTab - {topic};
        } else {
          subTab := subTab[topic := c];
        }
      }
    }

    method UnsubscribeAll(s: Session)
      requires Valid()
      modifies this`subTab, this`topics, patterns, patterns.repr
      ensures Valid() && patterns.repr == old(patterns.repr)
      ensures State() == Model.UnsubscribeAll(old(State()), s)
    {
      if s !in topics {
        return;
      }
      var list := topics[s];
      topics := topics - {s};
      LeaveTopics(s, list);
    }

    method LeaveTopics(s: Session, list: seq<string>)
      requires Valid()
      modifies this`subTab, patterns, patterns.repr
      ensures Valid() && patterns.repr == old(patterns.repr)
      ensures State() == UnsubscribeEach(old(State()), s, list)
    {
      var i := 0;
      while i < |list|
        invariant 0 <= i <= |list| && Valid() && patterns.repr == old(patterns.repr)
        invariant State() == UnsubscribeEach(old(State()), s, list[..i])
      {
        assert list[..i + 1][..i] == list[..i];
        Unsubscribe(s, list[i]);
        i := i + 1;
      }
      assert list[..i] == list;
    }
  }
}
