/**
  What each operation of the static cache does to its entries, its index and its answers,
  and what a lookup answers after any run.
 */
module CacheLaws {
  import opened Prelude
  import opened ResourceCache

  // ---- Inserting ----

  /** Which inserts are taken, and which refusal comes first; a refused one changes nothing but the queue. */
  lemma InsertOutcome(s: State, key: CacheKey, res: Resource, maxAge: nat, now: Option<nat>)
    ensures var (s', r) := Insert(s, key, res, maxAge, now);
            var roomy, spare := s.size + |res.data| <= s.maxSize, s.len < s.maxLen;
            && (r.Ok? <==> roomy && spare && now.Some? && now.value + maxAge < U64)
            && (r == Err(SizeFull) <==> !roomy)
            && (r == Err(LengthFull) <==> roomy && !spare)
            && (r == Err(BadClock) <==> roomy && spare && now.None?)
            && (r.Err? ==> s'.(queue := s.queue) == s)
  {
  }

  /** The answer is the signature and what a lookup would have answered just before; every other key stays as it was. */
  lemma InsertAnswer(s: State, key: CacheKey, res: Resource, maxAge: nat, now: Option<nat>, other: CacheKey)
    requires Insert(s, key, res, maxAge, now).1.Ok?
    ensures var (s', r) := Insert(s, key, res, maxAge, now);
            && r.value == (res.sign, Get(s, key, now))
            && s'.cache.Keys == s.cache.Keys + {key} && s'.cache[key] == Entry(now.value + maxAge, res)
            && (other in s.cache && other != key ==> s'.cache[other] == s.cache[other])
            && s'.index == s.index
  {
  }

  // ---- Removing ----

  /** After a removal the key is absent, every other key keeps its entry, the answer is what a lookup gave, and the counters fall by the entry. */
  lemma RemoveTakes(s: State, key: CacheKey, now: Option<nat>)
    requires Bounded(s)
    ensures var (s', r) := Remove(s, key, now);
            && r == Get(s, key, now)
            && s'.cache.Keys == s.cache.Keys - {key} && Shrinks(s, s')
            && s'.size == s.size - (if key in s.cache then |s.cache[key].res.data| else 0)
            && s'.len == s.len - (if key in s.cache then 1 else 0)
            && s'.index == s.index && s'.queue == s.queue
  {
    if key in s.cache {
      TotalTake(s.cache, key);
      CountTake(s.cache, key);
      MinusSmall(s.size, |s.cache[key].res.data|);
      MinusSmall(s.len, 1);
    } else {
      assert s.cache.Keys - {key} == s.cache.Keys;
    }
  }

  /** No entry appears or changes. */
  ghost predicate Shrinks(s: State, s': State) {
    forall k :: k in s'.cache ==> k in s.cache && s'.cache[k] == s.cache[k]
  }

  /** Dropping a timeout of the index takes out exactly the key it points to. */
  lemma EvictTakes(s: State, timeout: nat, now: Option<nat>)
    ensures var (s', r) := Evict(s, timeout, now);
            && s'.index == s.index - {timeout} && Shrinks(s, s')
            && (forall k :: k in s.cache ==> (k !in s'.cache <==> timeout in s.index && s.index[timeout] == k))
            && r == if timeout in s.index then Get(s, s.index[timeout], now) else Empty
  {
    if timeout !in s.index { assert s.index - {timeout} == s.index; }
  }

  // ---- Clearing ----

  /** Dropping the first m timeouts of a list, whatever they free. */
  function EvictFirst(s: State, times: seq<nat>, m: nat, clock: nat -> Option<nat>): State
    requires m <= |times|
    decreases m
  {
    if m == 0 then s else EvictFirst(Evict(s, times[0], clock(|times|)).0, times[1..], m - 1, clock)
  }

  /** The bytes that this frees: those of resources that had not expired. */
  function FreedBy(s: State, times: seq<nat>, m: nat, clock: nat -> Option<nat>): nat
    requires m <= |times|
    decreases m
  {
    if m == 0 then 0
    else
      var (s', r) := Evict(s, times[0], clock(|times|));
      (if r.Cache? then |r.res.data| else 0) + FreedBy(s', times[1..], m - 1, clock)
  }

  /** Forced eviction drops the shortest beginning of the list that frees enough, or all of it. */
  lemma {:induction false} ClearIsShortest(s: State, n: nat, times: seq<nat>, clock: nat -> Option<nat>) returns (m: nat)
    ensures m <= |times| && ClearAlong(s, n, times, clock) == EvictFirst(s, times, m, clock)
    ensures forall j :: 0 <= j < m ==> FreedBy(s, times, j, clock) < n
    ensures m < |times| ==> FreedBy(s, times, m, clock) >= n
    decreases |times|
  {
    m := 0;
    if times != [] && n > 0 {
      var (s', r) := Evict(s, times[0], clock(|times|));
      var freed := if r.Cache? then |r.res.data| else 0;
      var k := ClearIsShortest(s', Less(n, freed), times[1..], clock);
      m := k + 1;
      forall j | 0 <= j < m ensures FreedBy(s, times, j, clock) < n {
        if j > 0 { assert FreedBy(s', times[1..], j - 1, clock) < Less(n, freed); }
      }
    }
  }

  /** A key leaves the cache exactly with an index entry that points to it. */
  lemma {:induction false} ClearTakes(s: State, n: nat, times: seq<nat>, clock: nat -> Option<nat>, key: CacheKey)
    ensures var s' := ClearAlong(s, n, times, clock);
            && Shrinks(s, s') && IndexShrinks(s, s')
            && (key in s.cache ==> (key !in s'.cache <==> Unindexed(s, s', key)))
    decreases |times|
  {
    if times != [] && n > 0 {
      var (s1, r) := Evict(s, times[0], clock(|times|));
      EvictTakes(s, times[0], clock(|times|));
      var n' := if r.Cache? then Less(n, |r.res.data|) else n;
      ClearTakes(s1, n', times[1..], clock, key);
      UnindexedAlong(s, s1, ClearAlong(s1, n', times[1..], clock), times[0], key);
    }
  }

  ghost predicate IndexShrinks(s: State, s': State) {
    forall t :: t in s'.index ==> t in s.index && s'.index[t] == s.index[t]
  }

  /** An index entry that points to the key is gone. */
  ghost predicate Unindexed(s: State, s': State, key: CacheKey) {
    exists t :: t in s.index && s.index[t] == key && t !in s'.index
  }

  lemma UnindexedAlong(s: State, s1: State, s2: State, t: nat, key: CacheKey)
    requires s1.index == s.index - {t} && IndexShrinks(s1, s2)
    ensures Unindexed(s, s2, key) <==> (t in s.index && s.index[t] == key) || Unindexed(s1, s2, key)
  {
    if Unindexed(s, s2, key) {
      var u :| u in s.index && s.index[u] == key && u !in s2.index;
      if u != t { assert u in s1.index; }
    }
    if Unindexed(s1, s2, key) {
      var u :| u in s1.index && s1.index[u] == key && u !in s2.index;
      assert u in s.index;
    }
  }

  // ---- Expiry ----

  ghost predicate AllExpired(index: map<nat, CacheKey>, now: nat) { forall t :: t in index ==> t <= now }

  /**
    The sweep of expired entries goes from the latest timeout on and stops at the first one
    that has not expired, so it is all or nothing: if every indexed entry has expired, all
    of them go with the keys they point to; if any has not, nothing happens.
   */
  lemma {:induction false} ExpireIsAllOrNothing(s: State, now: nat, times: seq<nat>, clock: nat -> Option<nat>, key: CacheKey)
    requires Descending(times, s.index)
    ensures var s' := ExpireAlong(s, now, times, clock);
            && (!AllExpired(s.index, now) ==> s' == s)
            && (AllExpired(s.index, now) ==> s'.index == map[])
            && Shrinks(s, s') && IndexShrinks(s, s')
            && (key in s.cache ==> (key !in s'.cache <==> Unindexed(s, s', key)))
    decreases |times|
  {
    if times == [] {
      assert s.index == map[];
    } else if now < times[0] {
      assert times[0] in s.index;
    } else {
      var s1 := Evict(s, times[0], clock(|times|)).0;
      EvictTakes(s, times[0], clock(|times|));
      DescendingTail(times, s.index);
      assert AllExpired(s.index, now) && AllExpired(s1.index, now);
      ExpireIsAllOrNothing(s1, now, times[1..], clock, key);
      UnindexedAlong(s, s1, ExpireAlong(s1, now, times[1..], clock), times[0], key);
    }
  }

  /** An expired entry survives the sweep next to one that has not expired. */
  lemma ExpiredSurvives()
    ensures var s := State(9, 9, map[Public("k") := Entry(1, Resource(0, "", 0, []))], map[1 := Public("k"), 5 := Public("l")], 0, 1, []);
            Descending([5, 1], s.index) && forall clock :: ExpireAlong(s, 3, [5, 1], clock) == s
  {
  }

  // ---- The index ----

  /** The index gains what the collector is told, and loses what is evicted and nothing else. */
  lemma StepIndex(s: State, op: Op)
    ensures var s' := Step(s, op);
            match op
            case DoIndex =>
              s'.index == if Takes(s, op) then s.index[s.queue[0].timeout := s.queue[0].key] else s.index
            case DoExpire(timeout, _) => s'.index == s.index - {timeout}
            case DoClear(_, _) => IndexShrinks(s, s') && (!Takes(s, op) ==> s'.index == s.index)
            case _ => s'.index == s.index
  {
    match op {
      case DoExpire(timeout, now) => EvictTakes(s, timeout, now);
      case DoClear(times, clock) =>
        if Takes(s, op) { CollectTakes(s.(queue := s.queue[1..]), s.queue[0].size, times, clock, Public("")); }
      case _ =>
    }
  }

  lemma CollectTakes(s: State, n: nat, times: seq<nat>, clock: nat -> Option<nat>, key: CacheKey)
    ensures var s' := CollectClear(s, n, times, clock);
            && Shrinks(s, s') && IndexShrinks(s, s')
            && (key in s.cache ==> (key !in s'.cache <==> Unindexed(s, s', key)))
  {
    if n > 0 {
      ClearTakes(s, n, times, clock, key);
    } else if times != [] {
      var s' := Evict(s, times[0], clock(|times|)).0;
      EvictTakes(s, times[0], clock(|times|));
      UnindexedAlong(s, s', s', times[0], key);
    }
  }

  /** A request to clear no bytes drops the latest timeout and what it points to, and nothing else. */
  lemma ClearZeroTakesLatest(s: State, times: seq<nat>, clock: nat -> Option<nat>, latest: nat)
    requires Descending(times, s.index) && latest in s.index && forall t :: t in s.index ==> t <= latest
    ensures var s' := CollectClear(s, 0, times, clock);
            && s'.index == s.index - {latest} && Shrinks(s, s')
            && forall k :: k in s.cache ==> (k !in s'.cache <==> s.index[latest] == k)
  {
    assert latest in times && times[0] in s.index;
    EvictTakes(s, times[0], clock(|times|));
  }

  // ---- Runs ----

  /** Which operations take a key out: its removal, the removal of all, the eviction of an index entry that points to it. */
  ghost predicate TakesOut(s: State, op: Op, key: CacheKey) {
    match op
    case DoRemove(k, _) => k == key
    case DoRemoveAll => true
    case DoExpire(timeout, _) => timeout in s.index && s.index[timeout] == key
    case DoClear(_, _) => Unindexed(s, Step(s, op), key)
    case _ => false
  }

  lemma StepTakes(s: State, op: Op, key: CacheKey)
    requires !op.DoInsert?
    ensures Shrinks(s, Step(s, op))
    ensures key in s.cache ==> (key !in Step(s, op).cache <==> TakesOut(s, op, key))
  {
    match op {
      case DoExpire(timeout, now) => EvictTakes(s, timeout, now);
      case DoClear(times, clock) =>
        if Takes(s, op) {
          var s1 := s.(queue := s.queue[1..]);
          CollectTakes(s1, s.queue[0].size, times, clock, key);
          assert Unindexed(s1, Step(s, op), key) <==> Unindexed(s, Step(s, op), key);
        }
      case _ =>
    }
  }

  /** A successful insert under a key. */
  ghost predicate Stores(s: State, op: Op, key: CacheKey) {
    op.DoInsert? && op.key == key && Insert(s, key, op.res, op.maxAge, op.now).1.Ok?
  }

  /** The entry of the last successful insert under a key. */
  ghost function LastStored(maxSize: nat, maxLen: nat, ops: seq<Op>, key: CacheKey): Option<Entry> {
    if ops == [] then None
    else
      var before, op := ops[..|ops| - 1], ops[|ops| - 1];
      if Stores(Run(maxSize, maxLen, before), op, key) then Some(Entry(op.now.value + op.maxAge, op.res))
      else LastStored(maxSize, maxLen, before, key)
  }

  /** An operation took the key out after that insert. */
  ghost predicate TakenSince(maxSize: nat, maxLen: nat, ops: seq<Op>, key: CacheKey) {
    && ops != []
    && var before, op := ops[..|ops| - 1], ops[|ops| - 1];
       var s := Run(maxSize, maxLen, before);
       !Stores(s, op, key) && (TakenSince(maxSize, maxLen, before, key) || TakesOut(s, op, key))
  }

  /** A key is cached exactly if it was stored and not taken out since, and then with the entry stored last. */
  lemma {:induction false} HoldsLastStored(maxSize: nat, maxLen: nat, ops: seq<Op>, key: CacheKey)
    ensures var s, last := Run(maxSize, maxLen, ops), LastStored(maxSize, maxLen, ops, key);
            && (key in s.cache <==> last.Some? && !TakenSince(maxSize, maxLen, ops, key))
            && (key in s.cache ==> last == Some(s.cache[key]))
    decreases |ops|
  {
    if ops != [] {
      var before, op := ops[..|ops| - 1], ops[|ops| - 1];
      HoldsLastStored(maxSize, maxLen, before, key);
      if !op.DoInsert? { StepTakes(Run(maxSize, maxLen, before), op, key); }
    }
  }

  /** In every run a key is answered from the entry stored last, by the clock, unless an operation took it out since. */
  lemma ServesLastStored(maxSize: nat, maxLen: nat, ops: seq<Op>, key: CacheKey, now: Option<nat>)
    ensures var last := LastStored(maxSize, maxLen, ops, key);
            Get(Run(maxSize, maxLen, ops), key, now) ==
              if last.None? || TakenSince(maxSize, maxLen, ops, key) || now.None? then Empty
              else if now.value < last.value.timeout then Cache(last.value.res)
              else Expired
  {
    HoldsLastStored(maxSize, maxLen, ops, key);
  }
}
