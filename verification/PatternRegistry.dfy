/**
  The value a pattern trie stands for: every registered filter with its ordered
  list of sessions, and the order in which `lookup` collects them.
 */
module PatternRegistry {
  import opened Prelude
  import opened SortedSearch
  import opened TopicPaths

  /** A session: `uid` is the identity of the shared pointer, order and equality go by client id. */
  datatype Session = Session(uid: nat, clientId: string)

  function ClientIds(list: seq<Session>): (ids: seq<string>)
    ensures |ids| == |list|
    ensures forall i :: 0 <= i < |ids| ==> ids[i] == list[i].clientId
  {
    seq(|list|, i requires 0 <= i < |list| => list[i].clientId)
  }

  ghost predicate SortedSessions(list: seq<Session>) { StrictlySorted(ClientIds(list)) }

  /** Some session of this client is in the list. */
  ghost predicate HasClient(list: seq<Session>, id: string) { exists s :: s in list && s.clientId == id }

  lemma HasClientIff(list: seq<Session>, id: string)
    ensures HasClient(list, id) <==> id in ClientIds(list)
  {
    var ids := ClientIds(list);
    if id in ids {
      var i :| 0 <= i < |ids| && ids[i] == id;
      assert list[i] in list;
    }
    if HasClient(list, id) {
      var s :| s in list && s.clientId == id;
      var i :| 0 <= i < |list| && list[i] == s;
      assert ids[i] == id;
    }
  }

  /** Insert in order unless a session of the same client is already there. */
  function Enroll(list: seq<Session>, s: Session): (r: seq<Session>)
    ensures r != []
    ensures forall x :: x in list ==> x in r
    ensures forall x :: x in r ==> x in list || x == s
    ensures HasClient(r, s.clientId)
  {
    match Search(ClientIds(list), s.clientId)
    case At(i) => assert list[i] in list; list
    case Missing(i) => assert s in InsertAt(list, i, s); InsertAt(list, i, s)
  }

  /** Remove the session of the same client that the search finds. */
  function Withdraw(list: seq<Session>, s: Session): (r: seq<Session>)
    ensures forall x :: x in r ==> x in list
    ensures forall x :: x in list && x.clientId != s.clientId ==> x in r
  {
    match Search(ClientIds(list), s.clientId)
    case At(i) => RemoveAt(list, i)
    case Missing(_) => list
  }

  /** On an ordered list Enroll is insertion of the session, at most one per client. */
  lemma EnrollSorted(list: seq<Session>, s: Session)
    requires SortedSessions(list)
    ensures SortedSessions(Enroll(list, s))
    ensures forall x :: x in Enroll(list, s) <==> x in list || (x == s && !HasClient(list, s.clientId))
  {
    var ids := ClientIds(list);
    SearchSorted(ids, s.clientId);
    HasClientIff(list, s.clientId);
    match Search(ids, s.clientId) {
      case At(_) =>
      case Missing(i) =>
        InsertKeepsSorted(ids, s.clientId, i);
        assert ClientIds(InsertAt(list, i, s)) == InsertAt(ids, i, s.clientId);
    }
  }

  /** On an ordered list Withdraw deletes exactly the sessions of that client. */
  lemma WithdrawSorted(list: seq<Session>, s: Session)
    requires SortedSessions(list)
    ensures SortedSessions(Withdraw(list, s))
    ensures forall x :: x in Withdraw(list, s) <==> x in list && x.clientId != s.clientId
  {
    var ids := ClientIds(list);
    SearchSorted(ids, s.clientId);
    HasClientIff(list, s.clientId);
    match Search(ids, s.clientId) {
      case At(i) =>
        RemoveKeepsSorted(ids, i);
        assert ClientIds(RemoveAt(list, i)) == RemoveAt(ids, i);
        HasClientIff(RemoveAt(list, i), s.clientId);
      case Missing(_) =>
    }
  }

  /** Filters with their sessions; a filter without sessions is absent. */
  type Registry = map<Path, seq<Session>>

  function SessionsAt(reg: Registry, p: Path): seq<Session> {
    if p in reg then reg[p] else []
  }

  function Put(reg: Registry, p: Path, list: seq<Session>): (r: Registry)
    ensures SessionsAt(r, p) == list
    ensures forall q :: q != p ==> SessionsAt(r, q) == SessionsAt(reg, q)
  {
    if list == [] then reg - {p} else reg[p := list]
  }

  function Register(reg: Registry, p: Path, s: Session): Registry {
    Put(reg, p, Enroll(SessionsAt(reg, p), s))
  }

  function Unregister(reg: Registry, p: Path, s: Session): Registry {
    Put(reg, p, Withdraw(SessionsAt(reg, p), s))
  }

  /** The order in which the recursive `lookup` appends: '#', then below '+', then below the level itself. */
  function Collect(reg: Registry, prefix: Path, topic: Path): seq<Session>
    decreases |topic|
  {
    if topic == [] then SessionsAt(reg, prefix)
    else
      SessionsAt(reg, prefix + [Hash])
      + Collect(reg, prefix + [Plus], topic[1..])
      + Collect(reg, prefix + [topic[0]], topic[1..])
  }

  /** `PathTree::lookup`: None for a topic with wildcards. */
  function Lookup(reg: Registry, topic: Path): Option<seq<Session>>
    requires topic != []
  {
    if Wild(topic) then None else Some(Collect(reg, [], topic))
  }

  // ---- Every lookup is a count over the flat relation ----

  ghost predicate ValidRegistry(reg: Registry) {
    forall p :: p in reg ==> SortedSessions(reg[p])
  }

  /** The filters below prefix under which s is registered and whose rest matches topic. */
  ghost function Matching(reg: Registry, prefix: Path, topic: Path, s: Session): set<Path> {
    set p | p in reg && s in reg[p] && prefix <= p && StrictMatch(p[|prefix|..], topic)
  }

  lemma SortedCount(list: seq<Session>, s: Session)
    requires SortedSessions(list)
    ensures multiset(list)[s] == if s in list then 1 else 0
  {
    if s in list {
      var i :| 0 <= i < |list| && list[i] == s;
      var ids := ClientIds(list);
      assert list == list[..i] + [s] + list[i + 1..];
      forall j | 0 <= j < |list| && j != i ensures list[j] != s {
        LessIrreflexive(s.clientId);
        assert Less(ids[if i < j then i else j], ids[if i < j then j else i]);
      }
      assert s !in list[..i] && s !in list[i + 1..];
    }
  }

  lemma SingleMatch(reg: Registry, prefix: Path, s: Session, p: Path)
    ensures p in Matching(reg, prefix, [], s) <==> p == prefix && s in SessionsAt(reg, prefix)
  {
    if prefix <= p && p != prefix { assert p[|prefix|..] != []; }
    if p == prefix { assert p[|prefix|..] == []; }
  }

  /** A filter below prefix matches through '#', through '+' or through the topic's own level. */
  lemma MatchSplits(reg: Registry, prefix: Path, topic: Path, s: Session, p: Path)
    requires topic != [] && !Wild(topic)
    ensures p in Matching(reg, prefix, topic, s) <==>
              || (p == prefix + [Hash] && s in SessionsAt(reg, p))
              || p in Matching(reg, prefix + [Plus], topic[1..], s)
              || p in Matching(reg, prefix + [topic[0]], topic[1..], s)
  {
    var n := |prefix|;
    assert topic[0].Normal? by { assert topic[0] in topic; }
    if prefix <= p && |p| > n {
      var rest := p[n..];
      assert p == prefix + [p[n]] + p[n + 1..];
      assert rest[1..] == p[n + 1..];
      assert forall l :: prefix + [l] <= p <==> l == p[n];
      if |p| == n + 1 { assert p == prefix + [p[n]]; }
    } else {
      assert forall l :: !(prefix + [l] <= p);
      if prefix <= p { assert p[n..] == []; }
    }
  }

  /** The filters that match at the end of the topic: the prefix itself, if s is there. */
  lemma MatchingAtEnd(reg: Registry, prefix: Path, s: Session)
    ensures Matching(reg, prefix, [], s) == if s in SessionsAt(reg, prefix) then {prefix} else {}
  {
    forall p ensures p in Matching(reg, prefix, [], s) <==> p == prefix && s in SessionsAt(reg, prefix) {
      SingleMatch(reg, prefix, s, p);
    }
  }

  lemma DisjointSizes(m: set<Path>, a: set<Path>, b: set<Path>, c: set<Path>)
    requires forall p :: p in m <==> p in a || p in b || p in c
    requires a !! b && a !! c && b !! c
    ensures |m| == |a| + |b| + |c|
  {
    assert m == a + b + c;
  }

  lemma NextLevel(reg: Registry, prefix: Path, l: Level, topic: Path, s: Session, p: Path)
    requires p in Matching(reg, prefix + [l], topic, s)
    ensures |p| > |prefix| && p[|prefix|] == l
  {
    assert (prefix + [l])[|prefix|] == l;
  }

  /** The three ways to match share no filter, so their counts add up. */
  lemma MatchingAddsUp(reg: Registry, prefix: Path, topic: Path, s: Session)
    requires topic != [] && !Wild(topic)
    ensures |Matching(reg, prefix, topic, s)|
         == (if s in SessionsAt(reg, prefix + [Hash]) then 1 else 0)
            + |Matching(reg, prefix + [Plus], topic[1..], s)|
            + |Matching(reg, prefix + [topic[0]], topic[1..], s)|
  {
    var hash, rest := prefix + [Hash], topic[1..];
    var m := Matching(reg, prefix, topic, s);
    var a := if s in SessionsAt(reg, hash) then {hash} else {};
    var b, c := Matching(reg, prefix + [Plus], rest, s), Matching(reg, prefix + [topic[0]], rest, s);
    assert topic[0].Normal? by { assert topic[0] in topic; }
    forall p ensures p in m <==> p in a || p in b || p in c { MatchSplits(reg, prefix, topic, s, p); }
    forall p | p in b ensures p !in a && p !in c {
      NextLevel(reg, prefix, Plus, rest, s, p);
      if p in c { NextLevel(reg, prefix, topic[0], rest, s, p); }
    }
    forall p | p in c ensures p !in a { NextLevel(reg, prefix, topic[0], rest, s, p); }
    DisjointSizes(m, a, b, c);
  }

  /** One copy of s per registered filter that matches. */
  lemma {:induction false} CollectCounts(reg: Registry, prefix: Path, topic: Path, s: Session)
    requires ValidRegistry(reg) && !Wild(topic)
    ensures multiset(Collect(reg, prefix, topic))[s] == |Matching(reg, prefix, topic, s)|
    decreases |topic|
  {
    if topic == [] {
      MatchingAtEnd(reg, prefix, s);
      SortedCount(SessionsAt(reg, prefix), s);
    } else {
      assert !Wild(topic[1..]);
      CollectCounts(reg, prefix + [Plus], topic[1..], s);
      CollectCounts(reg, prefix + [topic[0]], topic[1..], s);
      SortedCount(SessionsAt(reg, prefix + [Hash]), s);
      MatchingAddsUp(reg, prefix, topic, s);
    }
  }

  // ---- The order of a lookup ----

  function Rank(l: Level): nat {
    match l
    case Hash => 0
    case Plus => 1
    case Normal(_) => 2
  }

  /** At the first level where they differ, `#` comes before `+` and `+` before a name. */
  predicate Earlier(p: Path, q: Path)
    decreases |p|
  {
    p != [] && q != [] && (Rank(p[0]) < Rank(q[0]) || (p[0] == q[0] && Earlier(p[1..], q[1..])))
  }

  /** What a lookup lists before and after going down one level. */
  function Ahead(reg: Registry, prefix: Path, topic: Path, l: Level): seq<Session>
    requires topic != []
  {
    SessionsAt(reg, prefix + [Hash]) + if l == Plus then [] else Collect(reg, prefix + [Plus], topic[1..])
  }

  function Behind(reg: Registry, prefix: Path, topic: Path, l: Level): seq<Session>
    requires topic != []
  {
    if l == Plus then Collect(reg, prefix + [topic[0]], topic[1..]) else []
  }

  lemma GoDown(reg: Registry, prefix: Path, topic: Path, p: Path)
    requires !Wild(topic) && StrictMatch(p, topic) && p != [] && p[0] != Hash
    ensures !Wild(topic[1..]) && StrictMatch(p[1..], topic[1..]) && prefix + [p[0]] + p[1..] == prefix + p
    ensures Collect(reg, prefix, topic)
         == Ahead(reg, prefix, topic, p[0]) + Collect(reg, prefix + [p[0]], topic[1..]) + Behind(reg, prefix, topic, p[0])
  {
    assert p[0] == Plus || p[0] == topic[0];
  }

  lemma Around<T>(front: seq<T>, back: seq<T>, a: seq<T>, x: seq<T>, b: seq<T>, y: seq<T>, c: seq<T>)
    ensures front + (a + x + b + y + c) + back == (front + a) + x + b + y + (c + back)
  {
  }

  lemma Within<T>(front: seq<T>, back: seq<T>, a: seq<T>, x: seq<T>, b: seq<T>)
    ensures front + (a + x + b) + back == (front + a) + x + (b + back)
  {
  }

  lemma Across<T>(front: seq<T>, a: seq<T>, x: seq<T>, b: seq<T>, b': seq<T>, y: seq<T>, c: seq<T>)
    ensures front + (a + x + b) + (b' + y + c) == (front + a) + x + (b + b') + y + c
  {
  }

  lemma Beside<T>(x: seq<T>, b: seq<T>, b': seq<T>, y: seq<T>, c: seq<T>)
    ensures x + b + b' + y + c == [] + x + (b + b') + y + c
  {
  }

  /** The sessions of a matching pattern are listed together. */
  lemma {:induction false} CollectHas(reg: Registry, prefix: Path, topic: Path, p: Path)
    returns (before: seq<Session>, after: seq<Session>)
    requires !Wild(topic) && StrictMatch(p, topic)
    ensures Collect(reg, prefix, topic) == before + SessionsAt(reg, prefix + p) + after
    decreases |topic|
  {
    before, after := [], [];
    if topic == [] {
      assert prefix + p == prefix;
    } else if p[0] == Hash {
      assert p == [Hash];
      after := Collect(reg, prefix + [Plus], topic[1..]) + Collect(reg, prefix + [topic[0]], topic[1..]);
    } else {
      GoDown(reg, prefix, topic, p);
      before, after := CollectHas(reg, prefix + [p[0]], topic[1..], p[1..]);
      var front, back := Ahead(reg, prefix, topic, p[0]), Behind(reg, prefix, topic, p[0]);
      Within(front, back, before, SessionsAt(reg, prefix + p), after);
      before, after := front + before, after + back;
    }
  }

  /** The sessions of an earlier pattern are listed before those of a later one. */
  lemma {:induction false} CollectInOrder(reg: Registry, prefix: Path, topic: Path, p: Path, q: Path)
    returns (before: seq<Session>, between: seq<Session>, after: seq<Session>)
    requires !Wild(topic) && StrictMatch(p, topic) && StrictMatch(q, topic) && Earlier(p, q)
    ensures Collect(reg, prefix, topic)
         == before + SessionsAt(reg, prefix + p) + between + SessionsAt(reg, prefix + q) + after
    decreases |topic|
  {
    if p[0] == q[0] && p[0] != Hash {
      GoDown(reg, prefix, topic, p);
      GoDown(reg, prefix, topic, q);
      before, between, after := CollectInOrder(reg, prefix + [p[0]], topic[1..], p[1..], q[1..]);
      var front, back := Ahead(reg, prefix, topic, p[0]), Behind(reg, prefix, topic, p[0]);
      Around(front, back, before, SessionsAt(reg, prefix + p), between, SessionsAt(reg, prefix + q), after);
      before, after := front + before, after + back;
    } else if p[0] == Hash {
      before, between, after := HashFirst(reg, prefix, topic, p, q);
    } else {
      before, between, after := PlusFirst(reg, prefix, topic, p, q);
    }
  }

  lemma HashFirst(reg: Registry, prefix: Path, topic: Path, p: Path, q: Path)
    returns (before: seq<Session>, between: seq<Session>, after: seq<Session>)
    requires !Wild(topic) && p == [Hash] && StrictMatch(q, topic) && q != [] && q[0] != Hash
    ensures Collect(reg, prefix, topic)
         == before + SessionsAt(reg, prefix + p) + between + SessionsAt(reg, prefix + q) + after
  {
    GoDown(reg, prefix, topic, q);
    var b', c := CollectHas(reg, prefix + [q[0]], topic[1..], q[1..]);
    var front, back := Ahead(reg, prefix, topic, q[0]), Behind(reg, prefix, topic, q[0]);
    var x, y := SessionsAt(reg, prefix + p), SessionsAt(reg, prefix + q);
    Within(front, back, b', y, c);
    var b := if q[0] == Plus then [] else Collect(reg, prefix + [Plus], topic[1..]);
    assert front == x + b;
    Beside(x, b, b', y, c + back);
    before, between, after := [], b + b', c + back;
  }

  lemma PlusFirst(reg: Registry, prefix: Path, topic: Path, p: Path, q: Path)
    returns (before: seq<Session>, between: seq<Session>, after: seq<Session>)
    requires !Wild(topic) && StrictMatch(p, topic) && StrictMatch(q, topic)
    requires p != [] && q != [] && p[0] == Plus && q[0].Normal?
    ensures Collect(reg, prefix, topic)
         == before + SessionsAt(reg, prefix + p) + between + SessionsAt(reg, prefix + q) + after
  {
    GoDown(reg, prefix, topic, p);
    GoDown(reg, prefix, topic, q);
    var a, b := CollectHas(reg, prefix + [Plus], topic[1..], p[1..]);
    var b', c := CollectHas(reg, prefix + [q[0]], topic[1..], q[1..]);
    Across(Ahead(reg, prefix, topic, Plus), a, SessionsAt(reg, prefix + p), b, b', SessionsAt(reg, prefix + q), c);
    before, between, after := Ahead(reg, prefix, topic, Plus) + a, b + b', c;
  }

  // ---- Runs of insert and remove against a plain relation ----

  datatype RegistryOp = Insert(p: Path, s: Session) | Remove(p: Path, s: Session)

  function ApplyOp(reg: Registry, op: RegistryOp): Registry {
    match op
    case Insert(p, s) => if Wild(p) then Register(reg, p, s) else reg
    case Remove(p, s) => if Wild(p) then Unregister(reg, p, s) else reg
  }

  function Replay(ops: seq<RegistryOp>): Registry {
    if ops == [] then map[] else ApplyOp(Replay(ops[..|ops| - 1]), ops[|ops| - 1])
  }

  /** The same run on a plain set of pairs, one session per filter and client. */
  ghost function Relation(ops: seq<RegistryOp>): set<(Path, Session)> {
    if ops == [] then {}
    else
      var rel, op := Relation(ops[..|ops| - 1]), ops[|ops| - 1];
      if !Wild(op.p) then rel
      else match op
        case Insert(p, s) => if Occupied(rel, p, s) then rel else rel + {(p, s)}
        case Remove(p, s) => set e | e in rel && !SameSlot(e, p, s)
  }

  ghost predicate SameSlot(e: (Path, Session), p: Path, s: Session) { e.0 == p && e.1.clientId == s.clientId }

  ghost predicate Occupied(rel: set<(Path, Session)>, p: Path, s: Session) {
    exists e :: e in rel && SameSlot(e, p, s)
  }

  ghost predicate Represents(reg: Registry, rel: set<(Path, Session)>) {
    && ValidRegistry(reg)
    && forall p, s :: (p, s) in rel <==> s in SessionsAt(reg, p)
  }

  lemma OccupiedIff(reg: Registry, rel: set<(Path, Session)>, p: Path, s: Session)
    requires Represents(reg, rel)
    ensures Occupied(rel, p, s) <==> HasClient(SessionsAt(reg, p), s.clientId)
  {
    var list := SessionsAt(reg, p);
    if Occupied(rel, p, s) {
      var e :| e in rel && SameSlot(e, p, s);
      assert e == (p, e.1) && e.1 in list;
    }
    if HasClient(list, s.clientId) {
      var y :| y in list && y.clientId == s.clientId;
      assert (p, y) in rel && SameSlot((p, y), p, s);
    }
  }

  lemma RegisterStep(reg: Registry, rel: set<(Path, Session)>, p: Path, s: Session)
    requires Represents(reg, rel)
    ensures Represents(Register(reg, p, s), if Occupied(rel, p, s) then rel else rel + {(p, s)})
  {
    EnrollSorted(SessionsAt(reg, p), s);
    OccupiedIff(reg, rel, p, s);
  }

  lemma UnregisterStep(reg: Registry, rel: set<(Path, Session)>, p: Path, s: Session)
    requires Represents(reg, rel)
    ensures Represents(Unregister(reg, p, s), set e | e in rel && !SameSlot(e, p, s))
  {
    WithdrawSorted(SessionsAt(reg, p), s);
  }

  /** After any run the ordered lists hold exactly the plain relation. */
  lemma {:induction false} ReplayIsRelation(ops: seq<RegistryOp>)
    ensures Represents(Replay(ops), Relation(ops))
    decreases |ops|
  {
    if ops != [] {
      var before, op := ops[..|ops| - 1], ops[|ops| - 1];
      ReplayIsRelation(before);
      match op {
        case Insert(p, s) => RegisterStep(Replay(before), Relation(before), p, s);
        case Remove(p, s) => UnregisterStep(Replay(before), Relation(before), p, s);
      }
    }
  }

  /** The related filters of s that match the topic. */
  ghost function Hits(rel: set<(Path, Session)>, topic: Path, s: Session): set<Path> {
    set e | e in rel && e.1 == s && StrictMatch(e.0, topic) :: e.0
  }

  lemma MatchingIsHits(reg: Registry, rel: set<(Path, Session)>, topic: Path, s: Session)
    requires Represents(reg, rel)
    ensures Matching(reg, [], topic, s) == Hits(rel, topic, s)
  {
    forall p ensures p in Matching(reg, [], topic, s) <==> p in Hits(rel, topic, s) {
      assert p[0..] == p;
      assert (p, s) in rel <==> s in SessionsAt(reg, p);
      if p in Hits(rel, topic, s) {
        var e :| e in rel && e.1 == s && StrictMatch(e.0, topic) && e.0 == p;
        assert e == (p, s);
      }
    }
  }

  /**
    The trie refines the flat relation: after any run of inserts and removes a
    lookup holds one copy of s per related filter that strictly matches the topic.
   */
  lemma LookupIsFlatRelation(ops: seq<RegistryOp>, topic: Path, s: Session)
    requires topic != [] && !Wild(topic)
    ensures multiset(Lookup(Replay(ops), topic).value)[s] == |Hits(Relation(ops), topic, s)|
  {
    ReplayIsRelation(ops);
    CollectCounts(Replay(ops), [], topic, s);
    MatchingIsHits(Replay(ops), Relation(ops), topic, s);
  }

  /** Membership alone needs no ordering: s is collected exactly when some matching filter holds it. */
  lemma {:induction false} CollectMembers(reg: Registry, prefix: Path, topic: Path, s: Session)
    requires !Wild(topic)
    ensures s in Collect(reg, prefix, topic) <==> Matching(reg, prefix, topic, s) != {}
    decreases |topic|
  {
    if topic == [] {
      MatchingAtEnd(reg, prefix, s);
    } else {
      assert !Wild(topic[1..]);
      CollectMembers(reg, prefix + [Plus], topic[1..], s);
      CollectMembers(reg, prefix + [topic[0]], topic[1..], s);
      MatchingAddsUp(reg, prefix, topic, s);
    }
  }

  lemma LookupMembers(reg: Registry, topic: Path, s: Session)
    requires topic != [] && !Wild(topic)
    ensures s in Lookup(reg, topic).value <==> exists p :: p in reg && s in reg[p] && StrictMatch(p, topic)
  {
    CollectMembers(reg, [], topic, s);
    assert forall p: Path :: p[0..] == p;
    forall p ensures p in Matching(reg, [], topic, s) <==> p in reg && s in reg[p] && StrictMatch(p, topic) {
      assert p[0..] == p;
    }
    if exists p :: p in reg && s in reg[p] && StrictMatch(p, topic) {
      var p :| p in reg && s in reg[p] && StrictMatch(p, topic);
      assert p in Matching(reg, [], topic, s);
    }
  }

  /** An empty registry finds nobody. */
  lemma NothingFound(topic: Path)
    requires topic != [] && !Wild(topic)
    ensures Lookup(map[], topic) == Some([])
  {
    var found := Lookup(map[], topic).value;
    if found != [] {
      LookupMembers(map[], topic, found[0]);
      assert false;
    }
  }

  /** `is_match` says yes exactly when the trie would deliver, on topics with enough levels. */
  lemma MatchersAgree(p: Path, topic: Path, s: Session)
    requires HashLast(p) && Wild(p) && !Wild(topic) && |topic| >= |p|
    ensures IsMatch(p, topic) <==> s in Lookup(Register(map[], p, s), topic).value
  {
    MatchersAgreeOnLongTopics(p, topic);
    var reg := Register(map[], p, s);
    assert reg == map[p := [s]] by { assert Enroll([], s) == [s]; }
    LookupMembers(reg, topic, s);
  }
}
