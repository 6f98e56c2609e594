/**
  The exact effect of each operation on the broker's tables, patterns included, and what
  the pattern table and the records hold after any run, told from its operations alone.
 */
module BrokerPatterns {
  import opened Prelude
  import opened SortedSearch
  import opened TopicPaths
  import opened PatternRegistry
  import opened BrokerModel
  import opened BrokerRuns
  import opened BrokerDelivery
  import opened BrokerRefinement

  // ---- Publishing ----

  /**
    The answer is what was cached, and what the patterns find as well if there was no cache
    or the topic becomes public just now; the cache holds the answer, and nothing else changes.
   */
  lemma SubscribedExact(b: Tables, isPublic: bool, topic: string, qos: nat, retain: Option<Publish>, t: string)
    requires !Wild(Parse(topic)) && SoundPublics(b.publics)
    ensures var (b', r) := Subscribed(b, isPublic, topic, qos, retain);
            var c, found := CacheOf(b.subTab, topic), Lookup(b.patterns, Parse(topic)).value;
            var isNew := isPublic && topic !in Topics(b.publics);
            && topic in b'.subTab && r == Some(Members(b'.subTab[topic]))
            && multiset(r.value) == (if c.Some? then multiset(Members(c.value)) else multiset{})
                                  + (if c.None? || isNew then multiset(found) else multiset{})
            && (t != topic ==> CacheOf(b'.subTab, t) == CacheOf(b.subTab, t))
            && b'.patterns == b.patterns && b'.topics == b.topics
  {
    if isPublic { AnnounceSound(b.publics, topic, qos); }
    var isNew := isPublic && topic !in Topics(b.publics);
    var found := Lookup(b.patterns, Parse(topic)).value;
    ServeMembers(CacheOf(b.subTab, topic), found, isNew, retain);
    SubscribedIs(b, isPublic, topic, qos, retain, isNew);
  }

  /** In which order: a lone subscriber after those the patterns find, a list before them. */
  lemma AnswerInOrder(b: Tables, isPublic: bool, topic: string, qos: nat, retain: Option<Publish>)
    requires !Wild(Parse(topic)) && SoundPublics(b.publics)
    ensures var r := Subscribed(b, isPublic, topic, qos, retain).1;
            var c, found := CacheOf(b.subTab, topic), Lookup(b.patterns, Parse(topic)).value;
            if c.None? then r == Some(found)
            else if !isPublic || topic in Topics(b.publics) then r == Some(Members(c.value))
            else r == Some(if c.value.first.Some? then found + Members(c.value) else Members(c.value) + found)
  {
    if isPublic { AnnounceSound(b.publics, topic, qos); }
    var isNew := isPublic && topic !in Topics(b.publics);
    ServeInOrder(CacheOf(b.subTab, topic), Lookup(b.patterns, Parse(topic)).value, isNew, retain);
    SubscribedIs(b, isPublic, topic, qos, retain, isNew);
  }

  lemma ServeInOrder(c: Option<SubCache>, found: seq<Session>, isNew: bool, retain: Option<Publish>)
    ensures Serve(c, Some(found), isNew, retain).Some?
    ensures Members(Serve(c, Some(found), isNew, retain).value)
         == if c.None? then found
            else if !isNew then Members(c.value)
            else if c.value.first.Some? then found + Members(c.value) else Members(c.value) + found
  {
  }

  lemma SubscribedIs(b: Tables, isPublic: bool, topic: string, qos: nat, retain: Option<Publish>, isNew: bool)
    requires !Wild(Parse(topic)) && isNew == (isPublic && Announce(b.publics, topic, qos).1)
    ensures var (b', r) := Subscribed(b, isPublic, topic, qos, retain);
            var c := Serve(CacheOf(b.subTab, topic), Lookup(b.patterns, Parse(topic)), isNew, retain);
            c.Some? && r == Some(Members(c.value)) && b'.subTab == b.subTab[topic := c.value]
                    && b'.patterns == b.patterns && b'.topics == b.topics
  {
  }

  lemma ServeMembers(c: Option<SubCache>, found: seq<Session>, isNew: bool, retain: Option<Publish>)
    ensures Serve(c, Some(found), isNew, retain).Some?
    ensures multiset(Members(Serve(c, Some(found), isNew, retain).value))
         == (if c.Some? then multiset(Members(c.value)) else multiset{})
          + (if c.None? || isNew then multiset(found) else multiset{})
  {
    if c.None? { FreshMembers(found, retain); }
  }

  lemma FreshMembers(found: seq<Session>, retain: Option<Publish>)
    ensures Members(FreshCache(found, retain)) == found
  {
    if |found| == 1 { assert found == [found[0]]; }
  }

  /** A topic with wildcards that is not cached is answered with nothing, and nothing changes. */
  lemma SubscribedWild(b: Tables, topic: string, qos: nat, retain: Option<Publish>)
    requires Wild(Parse(topic)) && topic !in b.subTab
    ensures Subscribed(b, false, topic, qos, retain) == (b, None)
  {
  }

  /** The list has the topic with this quality of service. */
  ghost predicate Listed(publics: seq<(string, nat)>, t: string, qos: nat) {
    exists i :: 0 <= i < |publics| && publics[i] == (t, qos)
  }

  /** The quality of service of the first public message on a topic. */
  ghost function FirstQos(ops: seq<Op>, t: string): Option<nat> {
    if ops == [] then None
    else
      var first, op := FirstQos(ops[..|ops| - 1], t), ops[|ops| - 1];
      if first.Some? then first
      else if op.Pub? && op.isPublic && op.topic == t then Some(op.qos)
      else None
  }

  lemma AnnounceLists(publics: seq<(string, nat)>, topic: string, qos: nat, t: string, q: nat)
    requires SoundPublics(publics)
    ensures Listed(Announce(publics, topic, qos).0, t, q) <==>
              Listed(publics, t, q) || (topic !in Topics(publics) && (t, q) == (topic, qos))
  {
    SearchSorted(Topics(publics), topic);
    match Search(Topics(publics), topic) {
      case At(_) =>
      case Missing(i) =>
        var publics' := InsertAt(publics, i, (topic, qos));
        assert publics' == publics[..i] + [(topic, qos)] + publics[i..];
        if Listed(publics, t, q) {
          var k :| 0 <= k < |publics| && publics[k] == (t, q);
          assert publics'[if k < i then k else k + 1] == (t, q);
        }
        assert publics'[i] == (topic, qos);
    }
  }

  /** The public topics are those that had a public message, each with the quality of service of the first. */
  lemma {:induction false} PublicsFromHistory(ops: seq<Op>, t: string)
    requires AllLegal(ops)
    ensures forall q: nat :: Listed(Run(ops).publics, t, q) <==> FirstQos(ops, t) == Some(q)
    ensures t in Topics(Run(ops).publics) <==> FirstQos(ops, t).Some?
    decreases |ops|
  {
    if ops != [] {
      var before, op := ops[..|ops| - 1], ops[|ops| - 1];
      var publics := Run(before).publics;
      PublicsFromHistory(before, t);
      RunSound(before);
      assert op in ops;
      StepPublics(Run(before), op);
      if op.Pub? && op.isPublic {
        AnnounceSound(publics, op.topic, op.qos);
        forall q: nat { AnnounceLists(publics, op.topic, op.qos, t, q); }
      }
    } else {
      assert Topics([]) == [];
    }
  }

  lemma StepPublics(b: Tables, op: Op)
    ensures Step(b, op).publics
         == if op.Pub? && op.isPublic then Announce(b.publics, op.topic, op.qos).0 else b.publics
  {
    match op {
      case Sub(s, f) =>
        if Wild(Parse(f)) {
          var keys := MatchedPublics(b.publics, Parse(f));
          SubscribeAllFrame(b.(topics := SaveTopic(SaveTopics(b.topics, s, keys), s, f)), s, keys);
        }
      case UnsubAll(s) =>
        if s in b.topics { EachFrame(b.(topics := b.topics - {s}), s, b.topics[s]); }
      case _ =>
    }
  }

  lemma {:induction false} SubscribeAllFrame(b: Tables, s: Session, keys: seq<string>)
    ensures var b' := SubscribeAll(b, s, keys).0;
            && b'.patterns == b.patterns && b'.publics == b.publics
            && b'.subTab.Keys == b.subTab.Keys + (set t | t in keys)
            && forall t :: t !in keys ==> CacheOf(b'.subTab, t) == CacheOf(b.subTab, t)
    decreases |keys|
  {
    if keys != [] {
      var front, last := keys[..|keys| - 1], keys[|keys| - 1];
      assert keys == front + [last];
      SubscribeAllFrame(b, s, front);
    } else {
      assert b.subTab.Keys + (set t | t in keys) == b.subTab.Keys;
    }
  }

  lemma {:induction false} EachFrame(b: Tables, s: Session, keys: seq<string>)
    ensures var b' := UnsubscribeEach(b, s, keys); b'.publics == b.publics && b'.topics == b.topics
    decreases |keys|
  {
    if keys != [] { EachFrame(b, s, keys[..|keys| - 1]); }
  }

  // ---- Unsubscribing ----

  /** Every cache that the filter touches is left, and every other one stays as it was. */
  lemma UnsubscribeCaches(b: Tables, s: Session, filter: string, t: string)
    requires !Wild(Parse(t))
    ensures CacheOf(Unsubscribe(b, s, filter).subTab, t)
         == if Touches(filter, t) then LeaveAt(CacheOf(b.subTab, t), s) else CacheOf(b.subTab, t)
  {
  }

  /** A pattern that is unsubscribed has no session of the client any more; every other filter and client stays. */
  lemma UnsubscribeRegistry(b: Tables, s: Session, filter: string, p: Path, x: Session)
    requires ValidRegistry(b.patterns)
    ensures var reg := Unsubscribe(b, s, filter).patterns;
            && ValidRegistry(reg)
            && (x in SessionsAt(reg, p) <==>
                  x in SessionsAt(b.patterns, p) && !(Wild(p) && p == Parse(filter) && x.clientId == s.clientId))
  {
    if Wild(Parse(filter)) { WithdrawSorted(SessionsAt(b.patterns, Parse(filter)), s); }
  }

  /** Some filter of the list is this pattern. */
  ghost predicate Names(keys: seq<string>, p: Path) { exists f :: f in keys && Parse(f) == p }

  lemma {:induction false} EachRegistry(b: Tables, s: Session, keys: seq<string>, p: Path)
    requires ValidRegistry(b.patterns)
    ensures var reg := UnsubscribeEach(b, s, keys).patterns;
            && ValidRegistry(reg)
            && forall x :: x in SessionsAt(reg, p) <==>
                 x in SessionsAt(b.patterns, p) && !(Wild(p) && Names(keys, p) && x.clientId == s.clientId)
    decreases |keys|
  {
    if keys != [] {
      var front, last := keys[..|keys| - 1], keys[|keys| - 1];
      assert keys == front + [last];
      EachRegistry(b, s, front, p);
      assert Names(keys, p) <==> Names(front, p) || Parse(last) == p;
      forall x ensures x in SessionsAt(UnsubscribeEach(b, s, keys).patterns, p) <==>
                         x in SessionsAt(b.patterns, p) && !(Wild(p) && Names(keys, p) && x.clientId == s.clientId)
      {
        UnsubscribeRegistry(UnsubscribeEach(b, s, front), s, last, p, x);
      }
      UnsubscribeRegistry(UnsubscribeEach(b, s, front), s, last, p, s);
    }
  }

  // ---- The record of a session ----

  /** How often a topic or filter is on a session's record. */
  ghost function Count(topics: map<Session, seq<string>>, s: Session, t: string): nat {
    if s in topics then multiset(topics[s])[t] else 0
  }

  ghost predicate WouldJoin(subTab: map<string, SubCache>, s: Session, t: string) {
    t !in subTab || Joins(subTab[t], s)
  }

  lemma SaveTopicCount(topics: map<Session, seq<string>>, s: Session, key: string, x: Session, t: string)
    ensures Count(SaveTopic(topics, s, key), x, t) == Count(topics, x, t) + if x == s && t == key then 1 else 0
  {
  }

  lemma {:induction false} SaveTopicsCount(topics: map<Session, seq<string>>, s: Session, keys: seq<string>, x: Session, t: string)
    ensures Count(SaveTopics(topics, s, keys), x, t) == Count(topics, x, t) + if x == s then multiset(keys)[t] else 0
    decreases |keys|
  {
    if keys != [] {
      var front, last := keys[..|keys| - 1], keys[|keys| - 1];
      assert keys == front + [last];
      SaveTopicsCount(topics, s, front, x, t);
      SaveTopicCount(SaveTopics(topics, s, front), s, last, x, t);
    }
  }

  lemma SubscribeTopicCount(b: Tables, s: Session, key: string, x: Session, t: string)
    ensures Count(SubscribeTopic(b, s, key).0.topics, x, t)
         == Count(b.topics, x, t) + if x == s && t == key && WouldJoin(b.subTab, s, key) then 1 else 0
  {
    SaveTopicCount(b.topics, s, key, x, t);
  }

  lemma {:induction false} SubscribeAllCount(b: Tables, s: Session, keys: seq<string>, x: Session, t: string)
    requires multiset(keys)[t] <= 1
    ensures Count(SubscribeAll(b, s, keys).0.topics, x, t)
         == Count(b.topics, x, t) + if x == s && t in keys && WouldJoin(b.subTab, s, t) then 1 else 0
    decreases |keys|
  {
    if keys != [] {
      var front, last := keys[..|keys| - 1], keys[|keys| - 1];
      assert keys == front + [last];
      SubscribeAllCount(b, s, front, x, t);
      SubscribeAllFrame(b, s, front);
      var mid := SubscribeAll(b, s, front).0;
      SubscribeTopicCount(mid, s, last, x, t);
      if last == t {
        assert t !in front;
        assert CacheOf(mid.subTab, t) == CacheOf(b.subTab, t);
      }
    }
  }

  /** Sorted public topics are matched once at most. */
  lemma {:induction false} MatchedOnce(publics: seq<(string, nat)>, filter: Path, t: string)
    requires StrictlySorted(Topics(publics))
    ensures multiset(MatchedPublics(publics, filter))[t] <= 1
    decreases |publics|
  {
    if publics != [] {
      var n := |publics| - 1;
      var front, keys := publics[..n], Topics(publics);
      assert Topics(front) == keys[..n];
      MatchedOnce(front, filter, t);
      var matched := MatchedPublics(front, filter);
      if publics[n].0 == t && t in matched {
        var i :| 0 <= i < |front| && front[i].0 == t && IsMatch(filter, Parse(t));
        assert Less(keys[i], keys[n]) && keys[i] == keys[n];
        LessIrreflexive(t);
        assert false;
      }
    }
  }

  /** Those a filter accepts come in the order of the sorted list. */
  lemma {:induction false} MatchedInOrder(publics: seq<(string, nat)>, filter: Path)
    requires StrictlySorted(Topics(publics))
    ensures StrictlySorted(MatchedPublics(publics, filter))
    decreases |publics|
  {
    if publics != [] {
      var n := |publics| - 1;
      var front, keys := publics[..n], Topics(publics);
      assert Topics(front) == keys[..n];
      MatchedInOrder(front, filter);
      var matched := MatchedPublics(front, filter);
      forall k | 0 <= k < |matched| ensures Less(matched[k], publics[n].0) {
        var i :| 0 <= i < |front| && front[i].0 == matched[k] && IsMatch(filter, Parse(matched[k]));
        assert keys[i] == matched[k] && Less(keys[i], keys[n]);
      }
    }
  }

  /**
    A session's record, exactly: a pattern subscription adds the pattern and every public
    topic it accepts, and joining a topic adds that topic; unsubscribing from everything
    clears it, and nothing else touches it.
   */
  lemma RecordStep(b: Tables, op: Op, s: Session, t: string)
    requires SoundPublics(b.publics)
    ensures var had := Count(b.topics, s, t);
            Count(Step(b, op).topics, s, t) ==
              match op
              case Sub(x, f) =>
                if x != s then had
                else if !Wild(Parse(f)) then had + (if t == f && WouldJoin(b.subTab, s, t) then 1 else 0)
                else had + (if t == f then 1 else 0)
                         + (if t !in MatchedPublics(b.publics, Parse(f)) then 0 else if WouldJoin(b.subTab, s, t) then 2 else 1)
              case UnsubAll(x) => if x == s then 0 else had
              case _ => had
  {
    match op {
      case Sub(x, f) =>
        if Wild(Parse(f)) {
          var keys := MatchedPublics(b.publics, Parse(f));
          var topics1 := SaveTopics(b.topics, x, keys);
          MatchedOnce(b.publics, Parse(f), t);
          SaveTopicsCount(b.topics, x, keys, s, t);
          SaveTopicCount(topics1, x, f, s, t);
          SubscribeAllCount(b.(topics := SaveTopic(topics1, x, f)), x, keys, s, t);
        } else {
          SubscribeTopicCount(b, x, f, s, t);
        }
      case UnsubAll(x) =>
        if x in b.topics { EachFrame(b.(topics := b.topics - {x}), x, b.topics[x]); }
      case _ =>
    }
  }

  // ---- Subscribing ----

  lemma {:induction false} SubscribeAllCaches(b: Tables, s: Session, keys: seq<string>, t: string)
    requires multiset(keys)[t] <= 1
    ensures CacheOf(SubscribeAll(b, s, keys).0.subTab, t)
         == if t in keys then JoinAt(CacheOf(b.subTab, t), s) else CacheOf(b.subTab, t)
    decreases |keys|
  {
    if keys != [] {
      var front, last := keys[..|keys| - 1], keys[|keys| - 1];
      assert keys == front + [last];
      SubscribeAllCaches(b, s, front, t);
      if last == t { assert t !in front; }
    }
  }

  /** A subscription joins the topic it names, or the public topics its pattern accepts, and touches no other cache. */
  lemma SubscribeCaches(b: Tables, s: Session, filter: string, t: string)
    requires SoundPublics(b.publics)
    ensures var joined := if Wild(Parse(filter)) then t in MatchedPublics(b.publics, Parse(filter)) else t == filter;
            CacheOf(Subscribe(b, s, filter).0.subTab, t) ==
              if joined then JoinAt(CacheOf(b.subTab, t), s) else CacheOf(b.subTab, t)
  {
    if Wild(Parse(filter)) {
      var keys := MatchedPublics(b.publics, Parse(filter));
      MatchedOnce(b.publics, Parse(filter), t);
      SubscribeAllCaches(b.(topics := SaveTopic(SaveTopics(b.topics, s, keys), s, filter)), s, keys, t);
    }
  }

  // ---- Patterns, from the operations alone ----

  /** The session has subscribed to the pattern since it last unsubscribed from everything. */
  ghost predicate PatternOnRecord(ops: seq<Op>, s: Session, p: Path) {
    && ops != []
    && var before, op := ops[..|ops| - 1], ops[|ops| - 1];
       || (op.Sub? && op.s == s && Parse(op.topic) == p)
       || (PatternOnRecord(before, s, p) && op != UnsubAll(s))
  }

  /** The operation ends the client's subscription to the pattern. */
  ghost predicate EndsPattern(before: seq<Op>, op: Op, p: Path, id: string) {
    match op
    case Unsub(s, f) => s.clientId == id && Parse(f) == p
    case UnsubAll(s) => s.clientId == id && PatternOnRecord(before, s, p)
    case _ => false
  }

  /** The client has subscribed to the pattern and not ended it since. */
  ghost predicate Subscribes(ops: seq<Op>, p: Path, id: string) {
    && ops != []
    && var before, op := ops[..|ops| - 1], ops[|ops| - 1];
       || (op.Sub? && op.s.clientId == id && Parse(op.topic) == p)
       || (Subscribes(before, p, id) && !EndsPattern(before, op, p, id))
  }

  /** It did so through this session object: the one that subscribed when no other one of the client did. */
  ghost predicate HeldBy(ops: seq<Op>, p: Path, s: Session) {
    && ops != []
    && var before, op := ops[..|ops| - 1], ops[|ops| - 1];
       || (op.Sub? && op.s == s && Parse(op.topic) == p && !Subscribes(before, p, s.clientId))
       || (HeldBy(before, p, s) && !EndsPattern(before, op, p, s.clientId))
  }

  lemma {:induction false} RecordHistory(ops: seq<Op>, s: Session, p: Path)
    requires AllLegal(ops) && Wild(p)
    ensures s in Run(ops).topics && Names(Run(ops).topics[s], p) <==> PatternOnRecord(ops, s, p)
    decreases |ops|
  {
    if ops != [] {
      var before, op := ops[..|ops| - 1], ops[|ops| - 1];
      RecordHistory(before, s, p);
      RunSound(before);
      assert op in ops;
      RecordNames(Run(before), op, s, p);
    }
  }

  lemma RecordNames(b: Tables, op: Op, s: Session, p: Path)
    requires SoundPublics(b.publics) && Wild(p)
    ensures var b' := Step(b, op);
            s in b'.topics && Names(b'.topics[s], p) <==>
              || (op.Sub? && op.s == s && Parse(op.topic) == p)
              || (s in b.topics && Names(b.topics[s], p) && op != UnsubAll(s))
  {
    var b' := Step(b, op);
    forall f | Parse(f) == p
      ensures Count(b'.topics, s, f) > 0 <==>
                (op.Sub? && op.s == s && op.topic == f) || (Count(b.topics, s, f) > 0 && op != UnsubAll(s))
    {
      RecordStep(b, op, s, f);
      if op.Sub? && Wild(Parse(op.topic)) { PlainKeys(b.publics, Parse(op.topic)); }
    }
    NamesCount(b.topics, s, p);
    NamesCount(b'.topics, s, p);
  }

  lemma PlainKeys(publics: seq<(string, nat)>, filter: Path)
    requires SoundPublics(publics)
    ensures forall t :: t in MatchedPublics(publics, filter) ==> !Wild(Parse(t))
  {
    forall t | t in MatchedPublics(publics, filter) ensures !Wild(Parse(t)) {
      var i :| 0 <= i < |publics| && publics[i].0 == t && IsMatch(filter, Parse(t));
      assert Topics(publics)[i] == t;
    }
  }

  lemma NamesCount(topics: map<Session, seq<string>>, s: Session, p: Path)
    ensures s in topics && Names(topics[s], p) <==> exists f :: Parse(f) == p && Count(topics, s, f) > 0
  {
    if s in topics && Names(topics[s], p) {
      var f :| f in topics[s] && Parse(f) == p;
      assert Count(topics, s, f) > 0;
    }
    if f :| Parse(f) == p && Count(topics, s, f) > 0 {
      assert f in topics[s];
    }
  }

  /**
    In every run the pattern table holds, for each pattern, exactly the sessions that the
    operations put there and have not taken away, one per client and in order.
   */
  lemma {:induction false} PatternsFromHistory(ops: seq<Op>, p: Path)
    requires AllLegal(ops) && Wild(p)
    ensures ValidRegistry(Run(ops).patterns)
    ensures forall s :: s in SessionsAt(Run(ops).patterns, p) <==> HeldBy(ops, p, s)
    ensures forall id :: HasClient(SessionsAt(Run(ops).patterns, p), id) <==> Subscribes(ops, p, id)
    decreases |ops|
  {
    if ops != [] {
      var before, op := ops[..|ops| - 1], ops[|ops| - 1];
      PatternsFromHistory(before, p);
      assert op in ops;
      match op {
        case Sub(s, f) => SubPatterns(Run(before), s, f, p);
        case Pub(_, _, _, _) =>
        case Unsub(s, f) =>
          var b := Run(before);
          var b' := Unsubscribe(b, s, f);
          forall x ensures x in SessionsAt(b'.patterns, p) <==>
                             x in SessionsAt(b.patterns, p) && !(Parse(f) == p && x.clientId == s.clientId)
          {
            UnsubscribeRegistry(b, s, f, p, x);
          }
          UnsubscribeRegistry(b, s, f, p, s);
          UnsubPatterns(b, b', s, p, Parse(f) == p);
        case UnsubAll(s) =>
          var b := Run(before);
          RecordHistory(before, s, p);
          if s in b.topics { EachRegistry(b.(topics := b.topics - {s}), s, b.topics[s], p); }
          UnsubPatterns(b, UnsubscribeAll(b, s), s, p, PatternOnRecord(before, s, p));
      }
    }
  }

  lemma SubPatterns(b: Tables, s: Session, f: string, p: Path)
    requires ValidRegistry(b.patterns) && Wild(p)
    ensures var reg := Subscribe(b, s, f).0.patterns;
            var list := SessionsAt(b.patterns, p);
            && ValidRegistry(reg)
            && (forall x :: x in SessionsAt(reg, p) <==>
                  x in list || (x == s && Parse(f) == p && !HasClient(list, s.clientId)))
            && (forall id :: HasClient(SessionsAt(reg, p), id) <==>
                  HasClient(list, id) || (id == s.clientId && Parse(f) == p))
  {
    if Wild(Parse(f)) {
      var keys := MatchedPublics(b.publics, Parse(f));
      SubscribeAllFrame(b.(topics := SaveTopic(SaveTopics(b.topics, s, keys), s, f)), s, keys);
      EnrollSorted(SessionsAt(b.patterns, Parse(f)), s);
      EnrollClients(SessionsAt(b.patterns, Parse(f)), s);
    }
  }

  lemma EnrollClients(list: seq<Session>, s: Session)
    ensures forall id :: HasClient(Enroll(list, s), id) <==> HasClient(list, id) || id == s.clientId
  {
    forall id ensures HasClient(Enroll(list, s), id) <==> HasClient(list, id) || id == s.clientId {
      if HasClient(list, id) { var x :| x in list && x.clientId == id; assert x in Enroll(list, s); }
    }
  }

  /** The client's going, told of clients. */
  lemma UnsubPatterns(b: Tables, b': Tables, s: Session, p: Path, gone: bool)
    requires forall x :: x in SessionsAt(b'.patterns, p) <==>
               x in SessionsAt(b.patterns, p) && !(gone && x.clientId == s.clientId)
    ensures forall id :: HasClient(SessionsAt(b'.patterns, p), id) <==>
              HasClient(SessionsAt(b.patterns, p), id) && !(gone && id == s.clientId)
  {
    forall id ensures HasClient(SessionsAt(b'.patterns, p), id) <==>
                        HasClient(SessionsAt(b.patterns, p), id) && !(gone && id == s.clientId)
    {
      if HasClient(SessionsAt(b.patterns, p), id) && !(gone && id == s.clientId) {
        var x :| x in SessionsAt(b.patterns, p) && x.clientId == id;
        assert x in SessionsAt(b'.patterns, p);
      }
    }
  }

  /** Only patterns are ever in the pattern table. */
  lemma OnlyPatterns(ops: seq<Op>, p: Path)
    requires AllLegal(ops) && p in Run(ops).patterns && Run(ops).patterns[p] != []
    ensures Wild(p)
  {
    RunSound(ops);
    var x := Run(ops).patterns[p][0];
    assert x in SessionsAt(Run(ops).patterns, p);
    assert SoundEntry(Subscriptions(ops), p, x);
  }

  // ---- A topic that was never named ----

  ghost predicate NeverNamed(ops: seq<Op>, topic: string) {
    forall op :: op in ops && (op.Sub? || op.Pub?) ==> op.topic != topic
  }

  lemma {:induction false} NotCached(ops: seq<Op>, topic: string)
    requires AllLegal(ops) && NeverNamed(ops, topic)
    ensures topic !in Run(ops).subTab && topic !in Topics(Run(ops).publics)
    decreases |ops|
  {
    if ops == [] {
      assert Topics([]) == [];
    } else {
      var before, op := ops[..|ops| - 1], ops[|ops| - 1];
      NotCached(before, topic);
      var b := Run(before);
      RunSound(before);
      assert op in ops;
      StepPublics(b, op);
      match op {
        case Sub(s, f) =>
          if Wild(Parse(f)) {
            var keys := MatchedPublics(b.publics, Parse(f));
            SubscribeAllFrame(b.(topics := SaveTopic(SaveTopics(b.topics, s, keys), s, f)), s, keys);
            KeysArePublic(b.publics, Parse(f));
          }
        case Pub(isPublic, t, qos, retain) => if isPublic { AnnounceSound(b.publics, t, qos); }
        case Unsub(s, f) =>
          if topic in Unsubscribe(b, s, f).subTab { LeavesOrStays(b, s, f, topic); }
        case UnsubAll(s) => if s in b.topics { EachShrinks(b.(topics := b.topics - {s}), s, b.topics[s]); }
      }
    }
  }

  lemma KeysArePublic(publics: seq<(string, nat)>, filter: Path)
    ensures forall t :: t in MatchedPublics(publics, filter) ==> t in Topics(publics)
  {
    forall t | t in MatchedPublics(publics, filter) ensures t in Topics(publics) {
      var i :| 0 <= i < |publics| && publics[i].0 == t && IsMatch(filter, Parse(t));
      assert Topics(publics)[i] == t;
    }
  }

  lemma {:induction false} EachShrinks(b: Tables, s: Session, keys: seq<string>)
    ensures UnsubscribeEach(b, s, keys).subTab.Keys <= b.subTab.Keys
    decreases |keys|
  {
    if keys != [] { EachShrinks(b, s, keys[..|keys| - 1]); }
  }

  /**
    The first message on a topic that no operation has named answers a client exactly if it
    has subscribed to a pattern that strictly matches the topic and not ended it since, and
    answers it through the session objects that hold those patterns.
   */
  lemma PatternsAnswer(ops: seq<Op>, isPublic: bool, topic: string, qos: nat, retain: Option<Publish>)
    requires AllLegal(ops) && NeverNamed(ops, topic) && !Wild(Parse(topic))
    ensures var r := Subscribed(Run(ops), isPublic, topic, qos, retain).1;
            && r.Some?
            && (forall s :: s in r.value <==> MatchHolds(ops, topic, s))
            && (forall id :: HasClient(r.value, id) <==> MatchSubscribes(ops, topic, id))
  {
    var b := Run(ops);
    NotCached(ops, topic);
    var found := Lookup(b.patterns, Parse(topic)).value;
    FreshAnswer(b, isPublic, topic, qos, retain);
    forall s ensures s in found <==> MatchHolds(ops, topic, s) { FoundIff(ops, topic, s); }
    forall id ensures HasClient(found, id) <==> MatchSubscribes(ops, topic, id) { FoundClientIff(ops, topic, id); }
  }

  lemma FreshAnswer(b: Tables, isPublic: bool, topic: string, qos: nat, retain: Option<Publish>)
    requires !Wild(Parse(topic)) && topic !in b.subTab
    ensures Subscribed(b, isPublic, topic, qos, retain).1 == Lookup(b.patterns, Parse(topic))
  {
    FreshMembers(Lookup(b.patterns, Parse(topic)).value, retain);
  }

  /** The session holds a pattern that strictly matches. */
  ghost predicate MatchHolds(ops: seq<Op>, topic: string, s: Session) {
    exists p :: Wild(p) && StrictMatch(p, Parse(topic)) && HeldBy(ops, p, s)
  }

  /** The client is subscribed to a pattern that strictly matches. */
  ghost predicate MatchSubscribes(ops: seq<Op>, topic: string, id: string) {
    exists p :: Wild(p) && StrictMatch(p, Parse(topic)) && Subscribes(ops, p, id)
  }

  lemma FoundClientIff(ops: seq<Op>, topic: string, id: string)
    requires AllLegal(ops) && !Wild(Parse(topic))
    ensures HasClient(Lookup(Run(ops).patterns, Parse(topic)).value, id) <==> MatchSubscribes(ops, topic, id)
  {
    var reg := Run(ops).patterns;
    var found := Lookup(reg, Parse(topic)).value;
    if HasClient(found, id) {
      var s :| s in found && s.clientId == id;
      FoundIff(ops, topic, s);
      var p :| Wild(p) && StrictMatch(p, Parse(topic)) && HeldBy(ops, p, s);
      PatternsFromHistory(ops, p);
      assert s in SessionsAt(reg, p);
      assert Subscribes(ops, p, id);
    }
    if MatchSubscribes(ops, topic, id) {
      var p :| Wild(p) && StrictMatch(p, Parse(topic)) && Subscribes(ops, p, id);
      PatternsFromHistory(ops, p);
      var s :| s in SessionsAt(reg, p) && s.clientId == id;
      assert HeldBy(ops, p, s);
      FoundIff(ops, topic, s);
    }
  }

  lemma FoundIff(ops: seq<Op>, topic: string, s: Session)
    requires AllLegal(ops) && !Wild(Parse(topic))
    ensures s in Lookup(Run(ops).patterns, Parse(topic)).value <==> MatchHolds(ops, topic, s)
  {
    var reg := Run(ops).patterns;
    LookupMembers(reg, Parse(topic), s);
    if s in Lookup(reg, Parse(topic)).value {
      var p :| p in reg && s in reg[p] && StrictMatch(p, Parse(topic));
      OnlyPatterns(ops, p);
      PatternsFromHistory(ops, p);
      assert s in SessionsAt(reg, p);
      assert HeldBy(ops, p, s);
    }
    if MatchHolds(ops, topic, s) {
      var p :| Wild(p) && StrictMatch(p, Parse(topic)) && HeldBy(ops, p, s);
      PatternsFromHistory(ops, p);
      assert s in SessionsAt(reg, p);
    }
  }
}
