/**
  What the broker's operations do to its tables, as functions on values.
  `Broker.dfy` proves the operations, which change the tables in place, equal to these.
 */
module BrokerModel {
  import opened Prelude
  import opened SortedSearch
  import opened TopicPaths
  import opened PatternRegistry

  /** A retained message. */
  datatype Publish = Publish(topic: string, payload: string)

  datatype Retain = Single(publish: Publish) | Multi(publishes: seq<Publish>)

  /** Sessions subscribed to one topic: a lone subscriber sits in `first`, several in `sessions`. */
  datatype SubCache = SubCache(retain: Option<Publish>, first: Option<Session>, sessions: seq<Session>)

  datatype Tables = Tables(
    subTab: map<string, SubCache>,
    patterns: Registry,
    publics: seq<(string, nat)>,
    topics: map<Session, seq<string>>)

  const EMPTY := Tables(map[], map[], [], map[])

  function Topics(publics: seq<(string, nat)>): (keys: seq<string>)
    ensures |keys| == |publics|
    ensures forall i :: 0 <= i < |keys| ==> keys[i] == publics[i].0
  {
    seq(|publics|, i requires 0 <= i < |publics| => publics[i].0)
  }

  // ---- subscribed: who gets a message published on a topic ----

  /** Record a public topic in order; the flag says whether it is new. */
  function Announce(publics: seq<(string, nat)>, topic: string, qos: nat): (seq<(string, nat)>, bool) {
    match Search(Topics(publics), topic)
    case At(_) => (publics, false)
    case Missing(i) => (InsertAt(publics, i, (topic, qos)), true)
  }

  function Members(c: SubCache): seq<Session> {
    match c.first
    case Some(s) => [s]
    case None => c.sessions
  }

  /** Merge the sessions found through the patterns into an existing cache. */
  function Merge(c: SubCache, found: seq<Session>): SubCache {
    match c.first
    case None => c.(sessions := c.sessions + found)
    case Some(s) => c.(first := None, sessions := found + [s])
  }

  function FreshCache(found: seq<Session>, retain: Option<Publish>): SubCache {
    if |found| == 0 then SubCache(retain, None, [])
    else if |found| == 1 then SubCache(retain, Some(found[0]), [])
    else SubCache(retain, None, found)
  }

  function KeepRetain(c: SubCache, retain: Option<Publish>): SubCache {
    if retain.Some? then c.(retain := retain) else c
  }

  /** The cache a call leaves behind: patterns are consulted for a new public topic or a missing cache. */
  function Serve(cache: Option<SubCache>, found: Option<seq<Session>>, isNew: bool, retain: Option<Publish>)
    : Option<SubCache>
  {
    match cache
    case Some(c) =>
      if isNew && found.Some? then Some(Merge(KeepRetain(c, retain), found.value)) else Some(KeepRetain(c, retain))
    case None =>
      if found.Some? then Some(FreshCache(found.value, retain)) else None
  }

  function CacheOf(subTab: map<string, SubCache>, topic: string): Option<SubCache> {
    if topic in subTab then Some(subTab[topic]) else None
  }

  /** The tables after the call, and the members of the topic's cache as the answer. */
  function Subscribed(b: Tables, isPublic: bool, topic: string, qos: nat, retain: Option<Publish>)
    : (Tables, Option<seq<Session>>)
  {
    var (publics, isNew) := if isPublic then Announce(b.publics, topic, qos) else (b.publics, false);
    var cache := Serve(CacheOf(b.subTab, topic), Lookup(b.patterns, Parse(topic)), isNew, retain);
    match cache
    case Some(c) => (b.(publics := publics, subTab := b.subTab[topic := c]), Some(Members(c)))
    case None => (b.(publics := publics), None)
  }

  // ---- subscribe ----

  function SaveTopic(topics: map<Session, seq<string>>, s: Session, topic: string): map<Session, seq<string>> {
    topics[s := if s in topics then topics[s] + [topic] else [topic]]
  }

  /** Join the sessions of a topic that is already cached. */
  function Join(c: SubCache, s: Session): SubCache {
    var list := if c.first.Some? then c.sessions + [c.first.value] else c.sessions;
    c.(first := None, sessions := Enroll(list, s))
  }

  /** Whether the search did not find the client among the cached sessions. */
  predicate Joins(c: SubCache, s: Session) {
    var list := if c.first.Some? then c.sessions + [c.first.value] else c.sessions;
    Search(ClientIds(list), s.clientId).Missing?
  }

  function SubscribeTopic(b: Tables, s: Session, topic: string): (Tables, Option<Publish>) {
    if topic !in b.subTab then
      (b.(subTab := b.subTab[topic := SubCache(None, Some(s), [])], topics := SaveTopic(b.topics, s, topic)), None)
    else
      var c := b.subTab[topic];
      (b.(subTab := b.subTab[topic := Join(c, s)],
          topics := if Joins(c, s) then SaveTopic(b.topics, s, topic) else b.topics), c.retain)
  }

  /** The public topics a filter matches, in the order of the list. */
  function MatchedPublics(publics: seq<(string, nat)>, filter: Path): (keys: seq<string>)
    ensures forall t :: t in keys <==> exists i :: 0 <= i < |publics| && publics[i].0 == t && IsMatch(filter, Parse(t))
  {
    if publics == [] then []
    else
      var last := |publics| - 1;
      var keys := MatchedPublics(publics[..last], filter);
      if IsMatch(filter, Parse(publics[last].0)) then keys + [publics[last].0] else keys
  }

  function SaveTopics(topics: map<Session, seq<string>>, s: Session, keys: seq<string>): map<Session, seq<string>> {
    if keys == [] then topics else SaveTopic(SaveTopics(topics, s, keys[..|keys| - 1]), s, keys[|keys| - 1])
  }

  /** Subscribe to each topic in turn, collecting the retained messages. */
  function SubscribeAll(b: Tables, s: Session, keys: seq<string>): (Tables, seq<Publish>) {
    if keys == [] then (b, [])
    else
      var (b1, kept) := SubscribeAll(b, s, keys[..|keys| - 1]);
      var (b2, retain) := SubscribeTopic(b1, s, keys[|keys| - 1]);
      (b2, if retain.Some? then kept + [retain.value] else kept)
  }

  function SubscribePattern(b: Tables, s: Session, topic: string): (Tables, seq<Publish>) {
    var keys := MatchedPublics(b.publics, Parse(topic));
    var b1 := b.(topics := SaveTopic(SaveTopics(b.topics, s, keys), s, topic));
    var (b2, kept) := SubscribeAll(b1, s, keys);
    (b2.(patterns := Register(b2.patterns, Parse(topic), s)), kept)
  }

  function Subscribe(b: Tables, s: Session, topic: string): (Tables, Option<Retain>) {
    if Wild(Parse(topic)) then
      var (b1, kept) := SubscribePattern(b, s, topic);
      (b1, if kept == [] then None else Some(Multi(kept)))
    else
      var (b1, retain) := SubscribeTopic(b, s, topic);
      (b1, if retain.Some? then Some(Single(retain.value)) else None)
  }

  // ---- unsubscribe ----

  /** Take a session out of a cache; the flag says that the topic is to be dropped. */
  function Leave(c: SubCache, s: Session): (SubCache, bool) {
    match c.first
    case Some(f) => if f == s then (c.(first := None), true) else (c, false)
    case None =>
      var left := Withdraw(c.sessions, s);
      (c.(sessions := left), left == [])
  }

  function LeaveTopic(subTab: map<string, SubCache>, s: Session, topic: string): map<string, SubCache> {
    if topic !in subTab then subTab
    else
      var (c, drop) := Leave(subTab[topic], s);
      if drop then subTab - {topic} else subTab[topic := c]
  }

  /** Leave the cache of a topic if the filter matches it. */
  function LeaveIf(c: SubCache, s: Session, filter: Path, topic: string): (SubCache, bool) {
    if IsMatch(filter, Parse(topic)) then Leave(c, s) else (c, false)
  }

  /** Every cached topic the filter matches is left at once. */
  function LeaveMatched(subTab: map<string, SubCache>, s: Session, filter: Path): map<string, SubCache> {
    map t | t in subTab && !LeaveIf(subTab[t], s, filter, t).1 :: LeaveIf(subTab[t], s, filter, t).0
  }

  function Unsubscribe(b: Tables, s: Session, topic: string): Tables {
    if Wild(Parse(topic)) then
      b.(subTab := LeaveMatched(b.subTab, s, Parse(topic)), patterns := Unregister(b.patterns, Parse(topic), s))
    else
      b.(subTab := LeaveTopic(b.subTab, s, topic))
  }

  function UnsubscribeEach(b: Tables, s: Session, topics: seq<string>): Tables {
    if topics == [] then b
    else Unsubscribe(UnsubscribeEach(b, s, topics[..|topics| - 1]), s, topics[|topics| - 1])
  }

  function UnsubscribeAll(b: Tables, s: Session): Tables {
    if s !in b.topics then b
    else UnsubscribeEach(b.(topics := b.topics - {s}), s, b.topics[s])
  }

  // ---- runs ----

  datatype Op =
    | Sub(s: Session, topic: string)
    | Pub(isPublic: bool, topic: string, qos: nat, retain: Option<Publish>)
    | Unsub(s: Session, topic: string)
    | UnsubAll(s: Session)

  /** Public topics carry no wildcard: the protocol rejects such a publish. */
  predicate Legal(op: Op) { op.Pub? && op.isPublic ==> !Wild(Parse(op.topic)) }

  function Step(b: Tables, op: Op): Tables {
    match op
    case Sub(s, topic) => Subscribe(b, s, topic).0
    case Pub(isPublic, topic, qos, retain) => Subscribed(b, isPublic, topic, qos, retain).0
    case Unsub(s, topic) => Unsubscribe(b, s, topic)
    case UnsubAll(s) => UnsubscribeAll(b, s)
  }

  function Run(ops: seq<Op>): Tables {
    if ops == [] then EMPTY else Step(Run(ops[..|ops| - 1]), ops[|ops| - 1])
  }
}
