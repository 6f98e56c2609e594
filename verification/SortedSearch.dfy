/**
  Ordering of strings and the binary search that the broker and the trie use to
  keep their vectors ordered.

  Rust compares strings by UTF-8 bytes, which is the order of code points, so
  `Less` is the lexicographic order on characters.
 */
module SortedSearch {

  /** Strict lexicographic order. */
  predicate Less(a: string, b: string)
    decreases |a|
  {
    b != [] && (a == [] || a[0] < b[0] || (a[0] == b[0] && Less(a[1..], b[1..])))
  }

  /** The order of strings: the first difference decides, and a beginning comes before what it begins. */
  lemma {:induction false} LessMeaning(a: string, b: string)
    ensures Less(a, b) <==> exists k: nat :: DiffersAt(a, b, k)
    decreases |a|
  {
    if a == [] {
      assert b != [] ==> DiffersAt(a, b, 0);
    } else if b != [] {
      if a[0] < b[0] { assert DiffersAt(a, b, 0); }
      LessMeaning(a[1..], b[1..]);
      forall k: nat ensures a[0] == b[0] ==> (DiffersAt(a[1..], b[1..], k) <==> DiffersAt(a, b, k + 1)) {
        if k < |a| && k < |b| {
          assert a[..k + 1] == [a[0]] + a[1..][..k] && b[..k + 1] == [b[0]] + b[1..][..k];
        }
      }
      if a[0] == b[0] && Less(a[1..], b[1..]) {
        var k: nat :| DiffersAt(a[1..], b[1..], k);
        assert DiffersAt(a, b, k + 1);
      }
      if k: nat :| DiffersAt(a, b, k) {
        if k > 0 {
          assert a[0] == a[..k][0] == b[..k][0] == b[0];
          assert DiffersAt(a[1..], b[1..], k - 1);
        }
      }
    }
  }

  ghost predicate DiffersAt(a: string, b: string, k: nat) {
    k <= |a| && k < |b| && a[..k] == b[..k] && (k == |a| || a[k] < b[k])
  }

  lemma {:induction false} LessIrreflexive(a: string)
    ensures !Less(a, a)
    decreases |a|
  {
    if a != [] { LessIrreflexive(a[1..]); }
  }

  lemma {:induction false} LessTransitive(a: string, b: string, c: string)
    requires Less(a, b) && Less(b, c)
    ensures Less(a, c)
    decreases |a|
  {
    if a != [] && a[0] == b[0] && b[0] == c[0] {
      LessTransitive(a[1..], b[1..], c[1..]);
    }
  }

  lemma {:induction false} LessTotal(a: string, b: string)
    ensures a == b || Less(a, b) || Less(b, a)
    decreases |a|
  {
    if a != [] && b != [] && a[0] == b[0] {
      LessTotal(a[1..], b[1..]);
      assert a == [a[0]] + a[1..] && b == [b[0]] + b[1..];
    }
  }

  ghost predicate StrictlySorted(keys: seq<string>) {
    forall i, j :: 0 <= i < j < |keys| ==> Less(keys[i], keys[j])
  }

  /** What `binary_search_by` reports: the place found, or the place to insert. */
  datatype Found = At(index: nat) | Missing(index: nat)

  function Middle(lo: nat, hi: nat): (mid: nat)
    requires lo < hi
    ensures lo <= mid < hi
  {
    lo + (hi - lo) / 2
  }

  /** The bisection of keys[lo..hi]; on unsorted keys only the first two clauses are promised. */
  function SearchIn(keys: seq<string>, key: string, lo: nat, hi: nat): (r: Found)
    requires lo <= hi <= |keys|
    ensures r.At? ==> r.index < |keys| && keys[r.index] == key
    ensures r.Missing? ==> lo <= r.index <= hi
    decreases hi - lo
  {
    if lo == hi then Missing(lo)
    else
      var mid := Middle(lo, hi);
      if keys[mid] == key then At(mid)
      else if Less(keys[mid], key) then SearchIn(keys, key, mid + 1, hi)
      else SearchIn(keys, key, lo, mid)
  }

  function Search(keys: seq<string>, key: string): (r: Found)
    ensures r.At? ==> r.index < |keys| && keys[r.index] == key
    ensures r.Missing? ==> r.index <= |keys|
  {
    SearchIn(keys, key, 0, |keys|)
  }

  /** On sorted keys the search decides membership and names the insertion point. */
  ghost predicate Splits(keys: seq<string>, key: string, at: nat) {
    && at <= |keys|
    && (forall j :: 0 <= j < at ==> Less(keys[j], key))
    && (forall j :: at <= j < |keys| ==> Less(key, keys[j]))
  }

  lemma AllBelow(keys: seq<string>, key: string, mid: nat)
    requires mid < |keys| && StrictlySorted(keys) && Less(keys[mid], key)
    ensures forall j :: 0 <= j <= mid ==> Less(keys[j], key)
  {
    forall j | 0 <= j < mid ensures Less(keys[j], key) { LessTransitive(keys[j], keys[mid], key); }
  }

  lemma AllAbove(keys: seq<string>, key: string, mid: nat)
    requires mid < |keys| && StrictlySorted(keys) && Less(key, keys[mid])
    ensures forall j :: mid <= j < |keys| ==> Less(key, keys[j])
  {
    forall j | mid < j < |keys| ensures Less(key, keys[j]) { LessTransitive(key, keys[mid], keys[j]); }
  }

  lemma {:induction false} SearchInSorted(keys: seq<string>, key: string, lo: nat, hi: nat)
    requires lo <= hi <= |keys| && StrictlySorted(keys)
    requires forall j :: 0 <= j < lo ==> Less(keys[j], key)
    requires forall j :: hi <= j < |keys| ==> Less(key, keys[j])
    ensures var r := SearchIn(keys, key, lo, hi); r.Missing? ==> Splits(keys, key, r.index)
    decreases hi - lo
  {
    if lo < hi {
      var mid := Middle(lo, hi);
      LessTotal(keys[mid], key);
      if keys[mid] == key {
      } else if Less(keys[mid], key) {
        AllBelow(keys, key, mid);
        SearchInSorted(keys, key, mid + 1, hi);
      } else {
        AllAbove(keys, key, mid);
        SearchInSorted(keys, key, lo, mid);
      }
    }
  }

  lemma SearchSorted(keys: seq<string>, key: string)
    requires StrictlySorted(keys)
    ensures var r := Search(keys, key);
            && (r.At? <==> key in keys)
            && (r.Missing? ==> Splits(keys, key, r.index))
  {
    SearchInSorted(keys, key, 0, |keys|);
    LessIrreflexive(key);
  }

  /** The loop of the standard library's `binary_search_by`. */
  method BinarySearch(keys: seq<string>, key: string) returns (r: Found)
    ensures r == Search(keys, key)
    ensures StrictlySorted(keys) ==> (r.At? <==> key in keys)
    ensures StrictlySorted(keys) && r.Missing? ==> Splits(keys, key, r.index)
  {
    if StrictlySorted(keys) { SearchSorted(keys, key); }
    var lo, hi := 0, |keys|;
    while lo < hi
      invariant 0 <= lo <= hi <= |keys|
      invariant Search(keys, key) == SearchIn(keys, key, lo, hi)
    {
      var mid := Middle(lo, hi);
      if keys[mid] == key {
        return At(mid);
      } else if Less(keys[mid], key) {
        lo := mid + 1;
      } else {
        hi := mid;
      }
    }
    r := Missing(lo);
  }

  function InsertAt<T(!new)>(s: seq<T>, i: nat, x: T): (r: seq<T>)
    requires i <= |s|
    ensures |r| == |s| + 1 && r[i] == x
    ensures forall y :: y in r <==> y in s || y == x
  {
    assert forall y :: y in s <==> y in s[..i] || y in s[i..] by { assert s == s[..i] + s[i..]; }
    s[..i] + [x] + s[i..]
  }

  function RemoveAt<T(!new)>(s: seq<T>, i: nat): (r: seq<T>)
    requires i < |s|
    ensures |r| == |s| - 1
    ensures forall y :: y in s <==> y in r || y == s[i]
  {
    assert forall y :: y in s <==> y in s[..i] || y == s[i] || y in s[i + 1..] by {
      assert s == s[..i] + [s[i]] + s[i + 1..];
    }
    s[..i] + s[i + 1..]
  }

  lemma InsertKeepsSorted(keys: seq<string>, key: string, i: nat)
    requires StrictlySorted(keys) && Splits(keys, key, i)
    ensures StrictlySorted(InsertAt(keys, i, key))
  {
  }

  lemma RemoveKeepsSorted(keys: seq<string>, i: nat)
    requires StrictlySorted(keys) && i < |keys|
    ensures StrictlySorted(RemoveAt(keys, i))
    ensures keys[i] !in RemoveAt(keys, i)
  {
    LessIrreflexive(keys[i]);
  }
}
