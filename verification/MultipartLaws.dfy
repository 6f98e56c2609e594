/**
  What the scanner's splitting, handing over and reading mean, without its recursion: the
  one way to cut a text at its boundaries, the last end marker, the first refusal, and the
  first chunk with an end marker.
 */
module MultipartLaws {
  import opened Prelude
  import opened Multipart

  /** Parts with a boundary after each, and what follows. */
  function Interleave(b: Bytes, parts: seq<Bytes>, rest: Bytes): Bytes {
    if parts == [] then rest else parts[0] + (b + Interleave(b, parts[1..], rest))
  }

  /** A cut of a text at its boundaries: each part ends where the first boundary after it starts, and none is left. */
  ghost predicate IsSplit(b: Bytes, text: Bytes, parts: seq<Bytes>, rest: Bytes)
    decreases |parts|
  {
    && text == Interleave(b, parts, rest)
    && if parts == [] then (forall i: nat :: !OccursAt(text, b, i))
       else
         && (forall i: nat :: OccursAt(text, b, i) ==> i >= |parts[0]|)
         && IsSplit(b, Interleave(b, parts[1..], rest), parts[1..], rest)
  }

  lemma {:induction false} SplitIsSplit(b: Bytes, text: Bytes)
    requires b != []
    ensures IsSplit(b, text, Parts(b, text), Rest(b, text))
    decreases |text|
  {
    FindMeaning(text, b);
    match Find(text, b)
    case None =>
    case Some(i) =>
      SplitOnce(b, text, i);
      SplitIsSplit(b, text[i + |b|..]);
      SplitCons(b, text, i, Parts(b, text[i + |b|..]), Rest(b, text));
  }

  lemma SplitCons(b: Bytes, text: Bytes, i: nat, parts: seq<Bytes>, rest: Bytes)
    requires OccursAt(text, b, i) && (forall j: nat :: OccursAt(text, b, j) ==> j >= i)
    requires IsSplit(b, text[i + |b|..], parts, rest)
    ensures IsSplit(b, text, [text[..i]] + parts, rest)
  {
    var all := [text[..i]] + parts;
    assert all[1..] == parts;
    assert text == text[..i] + (b + text[i + |b|..]);
  }

  /** The scanner's cut is the only one. */
  lemma {:induction false} SplitIsUnique(b: Bytes, text: Bytes, parts: seq<Bytes>, rest: Bytes)
    requires b != [] && IsSplit(b, text, parts, rest)
    ensures parts == Parts(b, text) && rest == Rest(b, text)
    decreases |parts|
  {
    FindMeaning(text, b);
    if parts != [] {
      var next, i := Interleave(b, parts[1..], rest), |parts[0]|;
      assert text[i..i + |b|] == b && text[..i] == parts[0] && text[i + |b|..] == next;
      assert OccursAt(text, b, i);
      SplitIsUnique(b, next, parts[1..], rest);
      SplitOnce(b, text, i);
      assert parts == [parts[0]] + parts[1..];
    }
  }

  /** The last part is closed by the last end marker in what is left, if there is one. */
  lemma TailMeaning(e: Bytes, rest: Bytes)
    ensures Tail(e, rest) == [] <==> forall i: nat :: !OccursAt(rest, e, i)
    ensures Tail(e, rest) != [] ==>
              exists i: nat :: OccursAt(rest, e, i) && Tail(e, rest) == [rest[..i]] && forall j: nat :: OccursAt(rest, e, j) ==> j <= i
  {
    FindLastMeaning(rest, e);
    if Tail(e, rest) != [] {
      var i := FindLast(rest, e).value;
      assert OccursAt(rest, e, i) && Tail(e, rest) == [rest[..i]];
    }
  }

  ghost predicate Refused(bad: Bytes -> bool, part: Bytes) { part != [] && bad(part) }

  /** Parts are handed over up to and including the first that is not empty and refused. */
  lemma {:induction false} HandMeaning(bad: Bytes -> bool, handed: seq<Bytes>, parts: seq<Bytes>) returns (n: nat)
    ensures n <= |parts| && Hand(bad, handed, parts).0 == handed + parts[..n]
    ensures Hand(bad, handed, parts).1 ==> n == |parts| && forall k :: 0 <= k < n ==> !Refused(bad, parts[k])
    ensures !Hand(bad, handed, parts).1 ==>
              n > 0 && Refused(bad, parts[n - 1]) && forall k :: 0 <= k < n - 1 ==> !Refused(bad, parts[k])
    decreases |parts|
  {
    if parts == [] {
      n := 0;
      assert handed + parts[..0] == handed;
    } else if Refused(bad, parts[0]) {
      n := 1;
      assert parts[..1] == [parts[0]];
    } else {
      var m := HandMeaning(bad, handed + [parts[0]], parts[1..]);
      n := m + 1;
      assert parts[..n] == [parts[0]] + parts[1..][..m];
      assert forall k :: 0 < k < |parts| ==> parts[k] == parts[1..][k - 1];
    }
  }

  ghost predicate HasMarker(e: Bytes, chunk: Bytes) { exists i: nat :: OccursAt(chunk, e, i) }

  lemma ContainsMeaning(e: Bytes, chunk: Bytes)
    ensures Contains(chunk, e) <==> HasMarker(e, chunk)
  {
    FindLastMeaning(chunk, e);
  }

  lemma ConcatTake(chunks: seq<Bytes>, n: nat)
    requires 0 < n <= |chunks|
    ensures Concat(chunks[..n]) == chunks[0] + Concat(chunks[1..][..n - 1])
  {
    assert chunks[..n][1..] == chunks[1..][..n - 1];
  }

  /** Chunks are read up to and including the first that holds the end marker. */
  lemma {:induction false} ReadMeaning(e: Bytes, chunks: seq<Bytes>) returns (n: nat)
    ensures n <= |chunks| && ReadOf(e, chunks) == Concat(chunks[..n])
    ensures forall k :: 0 <= k < n - 1 ==> !HasMarker(e, chunks[k])
    ensures n < |chunks| ==> n > 0 && HasMarker(e, chunks[n - 1])
    decreases |chunks|
  {
    n := 0;
    if chunks != [] {
      ContainsMeaning(e, chunks[0]);
      if Contains(chunks[0], e) {
        n := 1;
        ConcatTake(chunks, 1);
        assert chunks[0] + [] == chunks[0];
      } else {
        var m := ReadMeaning(e, chunks[1..]);
        n := m + 1;
        ConcatTake(chunks, n);
        forall k | 0 <= k < n - 1 ensures !HasMarker(e, chunks[k]) {
          if k > 0 { assert !HasMarker(e, chunks[1..][k - 1]); }
        }
      }
    } else {
      assert chunks[..0] == [];
    }
  }
}
