/**
  The cache of static resources: two counters stand for the bytes and the entries
  cached, inserts are checked against limits, and a collector evicts on request.
 */
module ResourceCache {
  import opened Prelude

  datatype Resource = Resource(lastModified: nat, mime: string, sign: nat, data: Bytes)

  datatype Entry = Entry(timeout: nat, res: Resource)

  datatype CacheKey = Private(owner: string, key: string) | Public(key: string)

  datatype CacheRes = Empty | Expired | Cache(res: Resource)

  /** What the collector is asked to do. */
  datatype Cmd = Index(timeout: nat, key: CacheKey) | Clear(size: nat)

  datatype InsertError = SizeFull | LengthFull | BadClock | BadAge

  datatype State = State(
    maxSize: nat,
    maxLen: nat,
    cache: map<CacheKey, Entry>,
    index: map<nat, CacheKey>,
    size: nat,
    len: nat,
    queue: seq<Cmd>)

  function Weight(e: Entry): nat { |e.res.data| }

  // ---- The operations as functions ----

  function Answer(e: Entry, now: nat): CacheRes { if now >= e.timeout then Expired else Cache(e.res) }

  function Get(s: State, key: CacheKey, now: Option<nat>): CacheRes {
    if key in s.cache && now.Some? then Answer(s.cache[key], now.value) else Empty
  }

  function Insert(s: State, key: CacheKey, res: Resource, maxAge: nat, now: Option<nat>)
    : (State, Result<(nat, CacheRes), InsertError>)
  {
    var n := |res.data|;
    if s.size + n > s.maxSize then (s.(queue := s.queue + [Clear(n)]), Err(SizeFull))
    else if s.len + 1 > s.maxLen then (s.(queue := s.queue + [Clear(0)]), Err(LengthFull))
    else if now.None? then (s, Err(BadClock))
    else if now.value + maxAge >= U64 then (s, Err(BadAge))
    else
      var timeout := now.value + maxAge;
      var s1 := s.(queue := s.queue + [Index(timeout, key)], cache := s.cache[key := Entry(timeout, res)]);
      if key in s.cache then
        (s1.(size := Minus(s.size, Weight(s.cache[key])) + n), Ok((res.sign, Answer(s.cache[key], now.value))))
      else
        (s1.(size := s.size + n, len := s.len + 1), Ok((res.sign, Empty)))
  }

  /** Take an entry out; without a clock it is gone but reported as absent. */
  function Remove(s: State, key: CacheKey, now: Option<nat>): (State, CacheRes) {
    if key !in s.cache then (s, Empty)
    else
      var e := s.cache[key];
      (s.(cache := s.cache - {key}, size := Minus(s.size, Weight(e)), len := Minus(s.len, 1)),
       if now.None? then Empty else Answer(e, now.value))
  }

  /** Only the entries go; the counters stay as they are. */
  function RemoveAll(s: State): State { s.(cache := map[]) }

  /** Drop one entry of the timeout index and the resource it points to. */
  function Evict(s: State, timeout: nat, now: Option<nat>): (State, CacheRes) {
    if timeout in s.index then Remove(s.(index := s.index - {timeout}), s.index[timeout], now) else (s, Empty)
  }

  /** The loop of `collect_clear` over timeouts, until enough has been freed. */
  function ClearAlong(s: State, n: nat, times: seq<nat>, clock: nat -> Option<nat>): State
    decreases |times|
  {
    if times == [] || n == 0 then s
    else
      var (s', res) := Evict(s, times[0], clock(|times|));
      ClearAlong(s', if res.Cache? then Less(n, |res.res.data|) else n, times[1..], clock)
  }

  /** `collect_clear`, given the timeouts from the latest on: for n = 0 just the latest entry goes. */
  function CollectClear(s: State, n: nat, times: seq<nat>, clock: nat -> Option<nat>): State {
    if n > 0 then ClearAlong(s, n, times, clock)
    else if times != [] then Evict(s, times[0], clock(|times|)).0
    else s
  }

  /** The loop of `collect_expired` over timeouts, from the latest on, up to the first that has not expired. */
  function ExpireAlong(s: State, now: nat, times: seq<nat>, clock: nat -> Option<nat>): State
    decreases |times|
  {
    if times == [] || now < times[0] then s
    else ExpireAlong(Evict(s, times[0], clock(|times|)).0, now, times[1..], clock)
  }

  function Less(n: nat, m: nat): nat { if m <= n then n - m else 0 }

  // ---- Sums ----

  ghost function Total(m: map<CacheKey, Entry>): nat {
    if m == map[] then 0
    else
      var k :| k in m;
      Weight(m[k]) + Total(m - {k})
  }

  /** Any entry may be counted first. */
  lemma {:induction false} TotalTake(m: map<CacheKey, Entry>, k: CacheKey)
    requires k in m
    ensures Total(m) == Weight(m[k]) + Total(m - {k})
    decreases |m|
  {
    var j :| j in m && Total(m) == Weight(m[j]) + Total(m - {j});
    if j != k {
      assert (m - {j}).Keys == m.Keys - {j};
      assert (m - {k}).Keys == m.Keys - {k};
      TotalTake(m - {j}, k);
      TotalTake(m - {k}, j);
      assert m - {j} - {k} == m - {k} - {j};
    }
  }

  lemma TotalPut(m: map<CacheKey, Entry>, k: CacheKey, e: Entry)
    ensures Total(m[k := e]) == Weight(e) + Total(m - {k})
  {
    assert m[k := e] - {k} == m - {k};
    TotalTake(m[k := e], k);
  }

  lemma CountTake(m: map<CacheKey, Entry>, k: CacheKey)
    requires k in m
    ensures |m| == 1 + |m - {k}|
  {
    assert (m - {k}).Keys == m.Keys - {k};
  }

  lemma CountPut(m: map<CacheKey, Entry>, k: CacheKey, e: Entry)
    ensures |m[k := e]| == 1 + |m - {k}|
  {
    assert m[k := e] - {k} == m - {k};
    CountTake(m[k := e], k);
  }

  /** Putting an entry replaces the one before, if any. */
  lemma SumsPut(m: map<CacheKey, Entry>, k: CacheKey, e: Entry)
    ensures Total(m[k := e]) == Total(m) + Weight(e) - (if k in m then Weight(m[k]) else 0)
    ensures |m[k := e]| == |m| + (if k in m then 0 else 1)
    ensures k in m ==> Weight(m[k]) <= Total(m)
  {
    TotalPut(m, k, e);
    CountPut(m, k, e);
    if k in m {
      TotalTake(m, k);
      CountTake(m, k);
    } else {
      assert m - {k} == m;
    }
  }

  // ---- The bounds ----

  /** The counters cover what is cached and respect the limits. */
  ghost predicate Bounded(s: State) {
    && Total(s.cache) <= s.size <= s.maxSize < U64
    && |s.cache| <= s.len <= s.maxLen < U64
  }

  /** By how much the counters exceed what is cached. */
  ghost function Drift(s: State): (int, int) { (s.size - Total(s.cache), s.len - |s.cache|) }

  lemma InsertBounded(s: State, key: CacheKey, res: Resource, maxAge: nat, now: Option<nat>)
    requires Bounded(s)
    ensures Bounded(Insert(s, key, res, maxAge, now).0) && Drift(Insert(s, key, res, maxAge, now).0) == Drift(s)
  {
    var (s', r) := Insert(s, key, res, maxAge, now);
    if r.Ok? {
      SumsPut(s.cache, key, Entry(now.value + maxAge, res));
      if key in s.cache { MinusSmall(s.size, Weight(s.cache[key])); }
      assert s'.cache == s.cache[key := Entry(now.value + maxAge, res)];
      assert Drift(s') == Drift(s);
    } else {
      assert s'.cache == s.cache && s'.size == s.size && s'.len == s.len;
    }
  }

  lemma RemoveBounded(s: State, key: CacheKey, now: Option<nat>)
    requires Bounded(s)
    ensures var (s', res) := Remove(s, key, now);
            && Bounded(s') && Drift(s') == Drift(s) && s'.size <= s.size
            && (res.Cache? ==> s'.size == s.size - |res.res.data|)
  {
    if key in s.cache {
      TotalTake(s.cache, key);
      CountTake(s.cache, key);
      MinusSmall(s.size, Weight(s.cache[key]));
      MinusSmall(s.len, 1);
    }
  }

  lemma EvictBounded(s: State, timeout: nat, now: Option<nat>)
    requires Bounded(s)
    ensures var (s', res) := Evict(s, timeout, now);
            && Bounded(s') && Drift(s') == Drift(s) && s'.size <= s.size
            && (res.Cache? ==> s'.size == s.size - |res.res.data|)
  {
    if timeout in s.index {
      var s1 := s.(index := s.index - {timeout});
      assert Bounded(s1) && Drift(s1) == Drift(s);
      RemoveBounded(s1, s.index[timeout], now);
    }
  }

  lemma EvictFrame(s: State, timeout: nat, now: Option<nat>)
    ensures var s' := Evict(s, timeout, now).0;
            s'.index == s.index - {timeout} && s'.maxSize == s.maxSize && s'.queue == s.queue
  {
    if timeout !in s.index { assert s.index - {timeout} == s.index; }
  }

  lemma {:induction false} ClearBounded(s: State, n: nat, times: seq<nat>, clock: nat -> Option<nat>)
    requires Bounded(s)
    ensures var s' := ClearAlong(s, n, times, clock);
            && Bounded(s') && Drift(s') == Drift(s) && s'.size <= s.size
            && s'.maxSize == s.maxSize && s'.queue == s.queue
    decreases |times|
  {
    if times != [] && n > 0 {
      EvictBounded(s, times[0], clock(|times|));
      EvictFrame(s, times[0], clock(|times|));
      var (s', res) := Evict(s, times[0], clock(|times|));
      ClearBounded(s', if res.Cache? then Less(n, |res.res.data|) else n, times[1..], clock);
    }
  }

  lemma CollectBounded(s: State, n: nat, times: seq<nat>, clock: nat -> Option<nat>)
    requires Bounded(s)
    ensures Bounded(CollectClear(s, n, times, clock)) && Drift(CollectClear(s, n, times, clock)) == Drift(s)
  {
    if n > 0 {
      ClearBounded(s, n, times, clock);
    } else if times != [] {
      EvictBounded(s, times[0], clock(|times|));
    }
  }

  // ---- Eviction makes room ----

  /** All timeouts of an index, latest first. */
  ghost predicate Descending(times: seq<nat>, index: map<nat, CacheKey>) {
    && (forall t :: t in times <==> t in index)
    && forall j, k :: 0 <= j < k < |times| ==> times[j] > times[k]
  }

  lemma DescendingTail(times: seq<nat>, index: map<nat, CacheKey>)
    requires times != [] && Descending(times, index)
    ensures Descending(times[1..], index - {times[0]})
    ensures forall u :: u in index && u != times[0] ==> u < times[0]
  {
    assert times == [times[0]] + times[1..];
  }

  /** Either the size counter falls by n, or nothing is left in the index. */
  lemma {:induction false} ClearMakesRoom(s: State, n: nat, times: seq<nat>, clock: nat -> Option<nat>)
    requires Bounded(s) && Descending(times, s.index)
    ensures var s' := ClearAlong(s, n, times, clock); s'.index == map[] || s'.size + n <= s.size
    decreases |times|
  {
    if times == [] {
      assert s.index == map[];
    } else if n > 0 {
      EvictBounded(s, times[0], clock(|times|));
      EvictFrame(s, times[0], clock(|times|));
      DescendingTail(times, s.index);
      var (s1, res) := Evict(s, times[0], clock(|times|));
      ClearMakesRoom(s1, if res.Cache? then Less(n, |res.res.data|) else n, times[1..], clock);
    }
  }

  /** What is evicted has later timeouts than what stays. */
  ghost predicate LatestGo(before: map<nat, CacheKey>, after: map<nat, CacheKey>) {
    after.Keys <= before.Keys && forall t, u :: t in after && u in before && u !in after ==> t < u
  }

  lemma {:induction false} ClearTakesLatest(s: State, n: nat, times: seq<nat>, clock: nat -> Option<nat>)
    requires Descending(times, s.index)
    ensures LatestGo(s.index, ClearAlong(s, n, times, clock).index)
    decreases |times|
  {
    if times != [] && n > 0 {
      EvictFrame(s, times[0], clock(|times|));
      DescendingTail(times, s.index);
      var (s1, res) := Evict(s, times[0], clock(|times|));
      ClearTakesLatest(s1, if res.Cache? then Less(n, |res.res.data|) else n, times[1..], clock);
    }
  }

  // ---- The cache object ----

  lemma ClearNext(s: State, n: nat, times: seq<nat>, i: nat, clock: nat -> Option<nat>)
    requires i < |times| && n > 0
    ensures var (s', res) := Evict(s, times[i], clock(|times| - i));
            ClearAlong(s, n, times[i..], clock) ==
            ClearAlong(s', if res.Cache? then Less(n, |res.res.data|) else n, times[i + 1..], clock)
  {
    assert times[i..][0] == times[i] && times[i..][1..] == times[i + 1..];
  }

  class StaticCache {
    const maxSize: nat
    const maxLen: nat
    var cache: map<CacheKey, Entry>
    var index: map<nat, CacheKey>
    var size: nat
    var len: nat
    var queue: seq<Cmd>

    ghost function Now(): State
      reads this
    {
      State(maxSize, maxLen, cache, index, size, len, queue)
    }

    constructor (maxSize: nat, maxLen: nat)
      ensures Now() == State(maxSize, maxLen, map[], map[], 0, 0, [])
    {
      this.maxSize, this.maxLen := maxSize, maxLen;
      cache, index, size, len, queue := map[], map[], 0, 0, [];
    }

    method Lookup(key: CacheKey, now: Option<nat>) returns (r: CacheRes)
      ensures r == Get(Now(), key, now)
    {
      if key in cache {
        if now.Some? {
          if now.value >= cache[key].timeout {
            return Expired;
          }
          return Cache(cache[key].res);
        }
      }
      r := Empty;
    }

    method Store(key: CacheKey, res: Resource, maxAge: nat, now: Option<nat>) returns (r: Result<(nat, CacheRes), InsertError>)
      modifies this
      ensures (Now(), r) == Insert(old(Now()), key, res, maxAge, now)
    {
      var n := |res.data|;
      if size + n > maxSize {
        queue := queue + [Clear(n)];
        return Err(SizeFull);
      }
      if len + 1 > maxLen {
        queue := queue + [Clear(0)];
        return Err(LengthFull);
      }
      if now.None? {
        return Err(BadClock);
      }
      var timeout := now.value + maxAge;
      if timeout >= U64 {
        return Err(BadAge);
      }
      queue := queue + [Index(timeout, key)];
      if key in cache {
        var before := cache[key];
        cache := cache[key := Entry(timeout, res)];
        size := Minus(size, Weight(before));
        size := size + n;
        return Ok((res.sign, if now.value >= before.timeout then Expired else Cache(before.res)));
      }
      cache := cache[key := Entry(timeout, res)];
      size := size + n;
      len := len + 1;
      r := Ok((res.sign, Empty));
    }

    method Drop(key: CacheKey, now: Option<nat>) returns (r: CacheRes)
      modifies this`cache, this`size, this`len
      ensures (Now(), r) == Remove(old(Now()), key, now)
    {
      r := Empty;
      if key in cache {
        var e := cache[key];
        cache := cache - {key};
        size := Minus(size, Weight(e));
        len := Minus(len, 1);
        if now.Some? {
          r := if now.value >= e.timeout then Expired else Cache(e.res);
        }
      }
    }

    method DropAll()
      modifies this`cache
      ensures Now() == RemoveAll(old(Now()))
    {
      cache := map[];
    }

    /** The timeouts of the index from the latest to the earliest. */
    method Timeouts() returns (times: seq<nat>)
      ensures Descending(times, index)
    {
      times := [];
      var left := index.Keys;
      while left != {}
        invariant left <= index.Keys
        invariant forall t :: t in times <==> t in index && t !in left
        invariant forall j, k :: 0 <= j < k < |times| ==> times[j] > times[k]
        invariant forall t, u :: t in times && u in left ==> t > u
        decreases |left|
      {
        var t := Latest(left);
        assert forall j :: 0 <= j < |times| ==> times[j] in times;
        times := times + [t];
        left := left - {t};
      }
    }

    static method Latest(times: set<nat>) returns (t: nat)
      requires times != {}
      ensures t in times && forall u :: u in times ==> u <= t
    {
      var todo := times;
      t :| t in todo;
      todo := todo - {t};
      while todo != {}
        invariant t in times && todo <= times
        invariant forall u :: u in times && u !in todo ==> u <= t
        decreases |todo|
      {
        var u :| u in todo;
        if u > t { t := u; }
        todo := todo - {u};
      }
    }

    /** Free n bytes or more, latest timeouts first; for n = 0 drop the latest entry. */
    method Collect(n: nat, clock: nat -> Option<nat>) returns (ghost times: seq<nat>)
      modifies this`cache, this`size, this`len, this`index
      ensures Descending(times, old(index)) && Now() == CollectClear(old(Now()), n, times, clock)
    {
      var order := Timeouts();
      times := order;
      if n == 0 {
        if |order| > 0 {
          var _ := DropIndexed(order[0], clock(|order|));
        }
        return;
      }
      ghost var goal := ClearAlong(Now(), n, order, clock);
      var i, left := 0, n;
      while i < |order| && left > 0
        invariant 0 <= i <= |order|
        invariant ClearAlong(Now(), left, order[i..], clock) == goal
      {
        ClearNext(Now(), left, order, i, clock);
        var res := DropIndexed(order[i], clock(|order| - i));
        if res.Cache? {
          left := Less(left, |res.res.data|);
        }
        i := i + 1;
      }
    }

    /** Drop entries from the latest timeout on, up to the first that has not expired; without a clock nothing. */
    method CollectExpired(now: Option<nat>, clock: nat -> Option<nat>) returns (ghost times: seq<nat>)
      modifies this`cache, this`size, this`len, this`index
      ensures Descending(times, old(index))
      ensures Now() == if now.Some? then ExpireAlong(old(Now()), now.value, times, clock) else old(Now())
    {
      var order := Timeouts();
      times := order;
      if now.None? {
        return;
      }
      ghost var goal := ExpireAlong(Now(), now.value, order, clock);
      var i := 0;
      while i < |order|
        invariant 0 <= i <= |order| && ExpireAlong(Now(), now.value, order[i..], clock) == goal
      {
        if now.value < order[i] {
          return;
        }
        assert order[i..][1..] == order[i + 1..];
        var _ := DropIndexed(order[i], clock(|order| - i));
        i := i + 1;
      }
    }

    /** The collector takes its next request. */
    method Process(clock: nat -> Option<nat>) returns (ghost times: seq<nat>)
      requires queue != []
      modifies this
      ensures Descending(times, old(index))
      ensures Now() == Step(old(Now()), if old(queue)[0].Index? then DoIndex else DoClear(times, clock))
    {
      var cmd := queue[0];
      queue := queue[1..];
      match cmd {
        case Index(timeout, key) =>
          times := Timeouts();
          index := index[timeout := key];
        case Clear(n) => times := Collect(n, clock);
      }
    }

    /** Drop an index entry and the resource it points to. */
    method DropIndexed(timeout: nat, now: Option<nat>) returns (r: CacheRes)
      modifies this`cache, this`size, this`len, this`index
      ensures (Now(), r) == Evict(old(Now()), timeout, now)
    {
      r := Empty;
      if timeout in index {
        var key := index[timeout];
        index := index - {timeout};
        r := Drop(key, now);
      }
    }
  }

  // ---- Runs ----

  datatype Op =
    | DoInsert(key: CacheKey, res: Resource, maxAge: nat, now: Option<nat>)
    | DoRemove(key: CacheKey, now: Option<nat>)
    | DoRemoveAll
    | DoIndex
    | DoClear(times: seq<nat>, clock: nat -> Option<nat>)
    | DoExpire(timeout: nat, now: Option<nat>)

  /** The collector takes the next request from its queue; expiry drops index entries one by one. */
  function Step(s: State, op: Op): State {
    match op
    case DoInsert(key, res, maxAge, now) => Insert(s, key, res, maxAge, now).0
    case DoRemove(key, now) => Remove(s, key, now).0
    case DoRemoveAll => RemoveAll(s)
    case DoIndex =>
      if s.queue != [] && s.queue[0].Index?
      then s.(queue := s.queue[1..], index := s.index[s.queue[0].timeout := s.queue[0].key]) else s
    case DoClear(times, clock) =>
      if s.queue != [] && s.queue[0].Clear?
      then CollectClear(s.(queue := s.queue[1..]), s.queue[0].size, times, clock) else s
    case DoExpire(timeout, now) => Evict(s, timeout, now).0
  }

  function Run(maxSize: nat, maxLen: nat, ops: seq<Op>): State {
    if ops == [] then State(maxSize, maxLen, map[], map[], 0, 0, [])
    else Step(Run(maxSize, maxLen, ops[..|ops| - 1]), ops[|ops| - 1])
  }

  /** The bounds speak of the cache, the counters and the limits only. */
  lemma SameBounds(s: State, s': State)
    requires Bounded(s) && s'.cache == s.cache && s'.size == s.size && s'.len == s.len
    requires s'.maxSize == s.maxSize && s'.maxLen == s.maxLen
    ensures Bounded(s') && Drift(s') == Drift(s)
  {
  }

  lemma CollectorBounded(s: State, op: Op)
    requires Bounded(s) && (op.DoIndex? || op.DoClear?)
    ensures Bounded(Step(s, op)) && Drift(Step(s, op)) == Drift(s)
  {
    if s.queue != [] {
      var s1 := s.(queue := s.queue[1..]);
      SameBounds(s, s1);
      if op.DoIndex? {
        SameBounds(s, Step(s, op));
      } else if s.queue[0].Clear? {
        CollectBounded(s1, s.queue[0].size, op.times, op.clock);
      }
    }
  }

  lemma StepBounded(s: State, op: Op)
    requires Bounded(s)
    ensures Bounded(Step(s, op)) && (!op.DoRemoveAll? ==> Drift(Step(s, op)) == Drift(s))
  {
    match op {
      case DoInsert(key, res, maxAge, now) => InsertBounded(s, key, res, maxAge, now);
      case DoRemove(key, now) => RemoveBounded(s, key, now);
      case DoRemoveAll =>
      case DoIndex => CollectorBounded(s, op);
      case DoClear(_, _) => CollectorBounded(s, op);
      case DoExpire(timeout, now) => EvictBounded(s, timeout, now);
    }
  }

  /** What the whole-cache removals of a run have left in the counters. */
  ghost function Lost(maxSize: nat, maxLen: nat, ops: seq<Op>): (int, int) {
    if ops == [] then (0, 0)
    else
      var before := ops[..|ops| - 1];
      var (bytes, entries) := Lost(maxSize, maxLen, before);
      if ops[|ops| - 1].DoRemoveAll? then
        var s := Run(maxSize, maxLen, before);
        (bytes + Total(s.cache), entries + |s.cache|)
      else (bytes, entries)
  }

  /**
    In every run the counters stay within the limits and cover what is cached, and they
    exceed it by exactly what the whole-cache removals threw away.
   */
  lemma {:induction false} RunBounded(maxSize: nat, maxLen: nat, ops: seq<Op>)
    requires maxSize < U64 && maxLen < U64
    ensures Bounded(Run(maxSize, maxLen, ops)) && Drift(Run(maxSize, maxLen, ops)) == Lost(maxSize, maxLen, ops)
    decreases |ops|
  {
    if ops != [] {
      var before := ops[..|ops| - 1];
      RunBounded(maxSize, maxLen, before);
      StepBounded(Run(maxSize, maxLen, before), ops[|ops| - 1]);
    }
  }

  ghost predicate RemovesOnlyEmpty(maxSize: nat, maxLen: nat, ops: seq<Op>) {
    forall i :: 0 <= i < |ops| && ops[i].DoRemoveAll? ==> Run(maxSize, maxLen, ops[..i]).cache == map[]
  }

  /** Both counters are exact if and only if every whole-cache removal met an empty cache. */
  lemma CountersExactIff(maxSize: nat, maxLen: nat, ops: seq<Op>)
    requires maxSize < U64 && maxLen < U64
    ensures var s := Run(maxSize, maxLen, ops);
            s.size == Total(s.cache) && s.len == |s.cache| <==> RemovesOnlyEmpty(maxSize, maxLen, ops)
  {
    NothingLostIff(maxSize, maxLen, ops);
    RunBounded(maxSize, maxLen, ops);
  }

  lemma {:induction false} NothingLostIff(maxSize: nat, maxLen: nat, ops: seq<Op>)
    ensures var (bytes, entries) := Lost(maxSize, maxLen, ops);
            bytes >= 0 && entries >= 0 && (bytes == entries == 0 <==> RemovesOnlyEmpty(maxSize, maxLen, ops))
    decreases |ops|
  {
    if ops != [] {
      var before := ops[..|ops| - 1];
      NothingLostIff(maxSize, maxLen, before);
      RemovesNext(maxSize, maxLen, ops);
    }
  }

  lemma RemovesNext(maxSize: nat, maxLen: nat, ops: seq<Op>)
    requires ops != []
    ensures var before := ops[..|ops| - 1];
            RemovesOnlyEmpty(maxSize, maxLen, ops) <==>
              && RemovesOnlyEmpty(maxSize, maxLen, before)
              && (ops[|ops| - 1].DoRemoveAll? ==> Run(maxSize, maxLen, before).cache == map[])
  {
    var before := ops[..|ops| - 1];
    assert forall i :: 0 <= i < |before| ==> before[..i] == ops[..i] && before[i] == ops[i];
  }

  /** One byte stored and everything removed: both counters stay at one for good. */
  lemma RemoveAllDrifts()
    ensures var ops := [DoInsert(Public("k"), Resource(0, "", 0, [0]), 1, Some(0)), DoRemoveAll];
            var s := Run(8, 8, ops);
            s.cache == map[] && s.size == 1 && s.len == 1
  {
    var ops := [DoInsert(Public("k"), Resource(0, "", 0, [0]), 1, Some(0)), DoRemoveAll];
    assert ops[..1] == [ops[0]] && ops[..1][..0] == [];
    var s0 := Run(8, 8, []);
    assert Run(8, 8, ops[..1]) == Step(s0, ops[0]);
    assert |s0.cache| == s0.size == s0.len == 0;
  }

  // ---- The collector's queue ----

  /** What an operation asks of the collector. */
  function Asked(s: State, op: Op): seq<Cmd> {
    if !op.DoInsert? then []
    else
      match Insert(s, op.key, op.res, op.maxAge, op.now).1
      case Ok(_) => [Index(op.now.value + op.maxAge, op.key)]
      case Err(SizeFull) => [Clear(|op.res.data|)]
      case Err(LengthFull) => [Clear(0)]
      case Err(_) => []
  }

  /** Whether a step of the collector takes the next request. */
  predicate Takes(s: State, op: Op) {
    s.queue != [] && ((op.DoIndex? && s.queue[0].Index?) || (op.DoClear? && s.queue[0].Clear?))
  }

  /** All that has been asked in a run. */
  ghost function Requests(maxSize: nat, maxLen: nat, ops: seq<Op>): seq<Cmd> {
    if ops == [] then []
    else
      var before := ops[..|ops| - 1];
      Requests(maxSize, maxLen, before) + Asked(Run(maxSize, maxLen, before), ops[|ops| - 1])
  }

  /** How many requests the collector has processed. */
  ghost function Processed(maxSize: nat, maxLen: nat, ops: seq<Op>): nat {
    if ops == [] then 0
    else
      var before := ops[..|ops| - 1];
      Processed(maxSize, maxLen, before) + if Takes(Run(maxSize, maxLen, before), ops[|ops| - 1]) then 1 else 0
  }

  lemma {:induction false} ClearKeepsQueue(s: State, n: nat, times: seq<nat>, clock: nat -> Option<nat>)
    ensures ClearAlong(s, n, times, clock).queue == s.queue && ClearAlong(s, n, times, clock).maxSize == s.maxSize
    decreases |times|
  {
    if times != [] && n > 0 {
      var (s', res) := Evict(s, times[0], clock(|times|));
      ClearKeepsQueue(s', if res.Cache? then Less(n, |res.res.data|) else n, times[1..], clock);
    }
  }

  lemma StepQueue(s: State, op: Op)
    ensures Step(s, op).queue == (if Takes(s, op) then s.queue[1..] else s.queue) + Asked(s, op)
    ensures Takes(s, op) ==> Asked(s, op) == []
  {
    if op.DoClear? && Takes(s, op) {
      ClearKeepsQueue(s.(queue := s.queue[1..]), s.queue[0].size, op.times, op.clock);
    }
  }

  /** The collector's queue holds, in order, the requests it has not processed. */
  lemma {:induction false} QueueIsFifo(maxSize: nat, maxLen: nat, ops: seq<Op>)
    ensures var all, done := Requests(maxSize, maxLen, ops), Processed(maxSize, maxLen, ops);
            done <= |all| && Run(maxSize, maxLen, ops).queue == all[done..]
    decreases |ops|
  {
    if ops != [] {
      var before, op := ops[..|ops| - 1], ops[|ops| - 1];
      QueueIsFifo(maxSize, maxLen, before);
      StepQueue(Run(maxSize, maxLen, before), op);
    }
  }

  /** Requests are numbered once and for all. */
  lemma {:induction false} RequestsGrow(maxSize: nat, maxLen: nat, ops: seq<Op>, i: nat)
    requires i <= |ops|
    ensures Requests(maxSize, maxLen, ops[..i]) <= Requests(maxSize, maxLen, ops)
    decreases |ops|
  {
    if i == |ops| {
      assert ops[..i] == ops;
    } else {
      var before := ops[..|ops| - 1];
      RequestsGrow(maxSize, maxLen, before, i);
      assert before[..i] == ops[..i];
    }
  }

  /** Processing a request to clear n bytes, in any run: n bytes are free then, or the index is spent. */
  lemma ClearServed(maxSize: nat, maxLen: nat, ops: seq<Op>, times: seq<nat>, clock: nat -> Option<nat>)
    requires maxSize < U64 && maxLen < U64
    requires var s := Run(maxSize, maxLen, ops);
             s.queue != [] && s.queue[0].Clear? && s.queue[0].size > 0 && Descending(times, s.index)
    ensures var s := Run(maxSize, maxLen, ops);
            var s' := Step(s, DoClear(times, clock));
            s'.index == map[] || s'.size + s.queue[0].size <= s'.maxSize
  {
    RunBounded(maxSize, maxLen, ops);
    var s := Run(maxSize, maxLen, ops);
    var s1, n := s.(queue := s.queue[1..]), s.queue[0].size;
    SameBounds(s, s1);
    ClearMakesRoom(s1, n, times, clock);
    ClearBounded(s1, n, times, clock);
  }

  ghost predicate RefusedForSize(maxSize: nat, maxLen: nat, ops: seq<Op>, i: nat)
    requires i < |ops|
  {
    && ops[i].DoInsert?
    && Insert(Run(maxSize, maxLen, ops[..i]), ops[i].key, ops[i].res, ops[i].maxAge, ops[i].now).1 == Err(SizeFull)
  }

  /**
    An insert is refused for size at some point of a run. Whatever happens in between, when
    the collector comes to the request that the refusal queued and processes it, the same
    insert passes the size check, unless the timeout index is spent.
   */
  lemma RefusedInsertFits(maxSize: nat, maxLen: nat, ops: seq<Op>, i: nat, times: seq<nat>, clock: nat -> Option<nat>)
    requires maxSize < U64 && maxLen < U64 && i < |ops| && RefusedForSize(maxSize, maxLen, ops, i)
    requires Processed(maxSize, maxLen, ops) == |Requests(maxSize, maxLen, ops[..i])|
    requires Descending(times, Run(maxSize, maxLen, ops).index)
    ensures var s := Run(maxSize, maxLen, ops);
            var n := |ops[i].res.data|;
            var s' := Step(s, DoClear(times, clock));
            && s.queue != [] && s.queue[0] == Clear(n)
            && (s'.index == map[] ||
                (s'.size + n <= s'.maxSize && Insert(s', ops[i].key, ops[i].res, ops[i].maxAge, ops[i].now).1 != Err(SizeFull)))
  {
    var k := |Requests(maxSize, maxLen, ops[..i])|;
    assert ops[..i + 1][..i] == ops[..i];
    RequestsGrow(maxSize, maxLen, ops, i + 1);
    assert Requests(maxSize, maxLen, ops[..i + 1])[k] == Clear(|ops[i].res.data|);
    QueueIsFifo(maxSize, maxLen, ops);
    RunBounded(maxSize, maxLen, ops[..i]);
    ClearServed(maxSize, maxLen, ops, times, clock);
  }
}
