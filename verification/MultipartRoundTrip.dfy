/**
  Printing parts with a boundary and scanning the text again, however it is cut,
  gives the parts back exactly if the boundary's name is not made of dashes only.
 */
module MultipartRoundTrip {
  import opened Prelude
  import opened Multipart
  import opened MultipartChunks

  /** Parts separated by boundary lines and closed by the end marker. */
  function Lines(b: Bytes, e: Bytes, parts: seq<Bytes>): Bytes
    requires parts != []
  {
    if |parts| == 1 then parts[0] + e else parts[0] + (b + Lines(b, e, parts[1..]))
  }

  /** A request body: nothing before the first boundary. */
  function Encode(name: Bytes, parts: seq<Bytes>): Bytes
    requires parts != []
  {
    Lines(Boundary(name), EndMarker(name), [[]] + parts)
  }

  /** A part that holds neither line. */
  ghost predicate Clean(b: Bytes, e: Bytes, part: Bytes) { Find(part, b).None? && Find(part, e).None? }

  ghost predicate AllClean(b: Bytes, e: Bytes, parts: seq<Bytes>) {
    forall i :: 0 <= i < |parts| ==> Clean(b, e, parts[i])
  }

  lemma LastByte(text: Bytes, x: Bytes, i: nat)
    requires IsLine(x) && OccursAt(text, x, i)
    ensures i + |x| <= |text| && text[i + |x| - 1] == LF
  {
    assert text[i + |x| - 1] == text[i..i + |x|][|x| - 1];
  }

  /** Where a line x occurs in a part followed by a line y: at the end of y or later. */
  lemma NotBeforeLine(part: Bytes, y: Bytes, more: Bytes, x: Bytes, i: nat)
    requires IsLine(x) && IsLine(y) && Find(part, x).None? && OccursAt(part + (y + more), x, i)
    ensures i + |x| >= |part| + |y|
  {
    var text := part + (y + more);
    LastByte(text, x, i);
    FindMeaning(part, x);
    OccursInPrefix(part, y + more, x, i);
    var k := i + |x| - 1;
    assert k < |part| + |y| ==> text[k] == y[k - |part|];
  }

  /** The boundary after a clean part is the first one found. */
  lemma FindAfterPart(part: Bytes, b: Bytes, more: Bytes)
    requires IsLine(b) && Find(part, b).None?
    ensures Find(part + (b + more), b) == Some(|part|)
  {
    var text := part + (b + more);
    FindMeaning(text, b);
    assert text[|part|..|part| + |b|] == b;
    assert OccursAt(text, b, |part|);
    NotBeforeLine(part, b, more, b, Find(text, b).value);
  }

  /** Behind a clean part the splitting goes on with what follows its boundary. */
  lemma SplitAfterPart(b: Bytes, e: Bytes, part: Bytes, more: Bytes)
    requires IsLine(b) && Find(part, b).None?
    ensures AllParts(b, e, part + (b + more)) == [part] + AllParts(b, e, more)
  {
    FindAfterPart(part, b, more);
    var text := part + (b + more);
    assert text[|part| + |b|..] == more && text[..|part|] == part;
    Assoc([part], Parts(b, more), Tail(e, Rest(b, more)));
  }

  /** The one is the end of the other; see `EndsAlikeIff`. */
  predicate EndsAlike(b: Bytes, e: Bytes) { |e| >= |b| && e[|e| - |b|..] == b }

  /** A line that ends where another one does is its end, or has it as its end. */
  lemma SameEnd(part: Bytes, y: Bytes, more: Bytes, x: Bytes, i: nat)
    requires OccursAt(part + (y + more), x, i) && i + |x| == |part| + |y|
    ensures if |x| <= |y| then EndsAlike(x, y) else EndsAlike(y, x)
  {
    var text, n := part + (y + more), |part| + |y|;
    assert text[|part|..n] == y;
    if |x| <= |y| {
      assert y[|y| - |x|..] == text[i..n];
    } else {
      assert x[|x| - |y|..] == text[i..n][|x| - |y|..] == text[|part|..n];
    }
  }

  lemma LastPart(b: Bytes, e: Bytes, part: Bytes)
    requires IsLine(b) && IsLine(e) && |b| <= |e| && !EndsAlike(b, e) && Clean(b, e, part)
    ensures AllParts(b, e, part + e) == [part]
  {
    var text := part + e;
    assert part + (e + []) == text;
    FindMeaning(text, b);
    if Find(text, b).Some? {
      var i := Find(text, b).value;
      NotBeforeLine(part, e, [], b, i);
      SameEnd(part, e, [], b, i);
      assert false;
    }
    assert text[|part|..|part| + |e|] == e;
    assert OccursAt(text, e, |part|);
    FindLastMeaning(text, e);
    assert text[..|part|] == part;
  }

  lemma {:induction false} PartsOfLines(b: Bytes, e: Bytes, parts: seq<Bytes>)
    requires IsLine(b) && IsLine(e) && |b| <= |e| && !EndsAlike(b, e) && parts != [] && AllClean(b, e, parts)
    ensures AllParts(b, e, Lines(b, e, parts)) == parts
    decreases |parts|
  {
    if |parts| == 1 {
      LastPart(b, e, parts[0]);
    } else {
      PartsOfLines(b, e, parts[1..]);
      SplitAfterPart(b, e, parts[0], Lines(b, e, parts[1..]));
      assert [parts[0]] + parts[1..] == parts;
    }
  }

  /** The end marker occurs at the end and nowhere before. */
  lemma {:induction false} EndMarkerIsLast(b: Bytes, e: Bytes, parts: seq<Bytes>, i: nat)
    requires IsLine(b) && IsLine(e) && |b| < |e| && !EndsAlike(b, e) && parts != [] && AllClean(b, e, parts)
    requires OccursAt(Lines(b, e, parts), e, i)
    ensures i + |e| == |Lines(b, e, parts)|
    decreases |parts|
  {
    var text, part := Lines(b, e, parts), parts[0];
    if |parts| == 1 {
      assert part + (e + []) == text;
      NotBeforeLine(part, e, [], e, i);
    } else {
      var more := Lines(b, e, parts[1..]);
      var n := |part| + |b|;
      NotBeforeLine(part, b, more, e, i);
      assert text == (part + b) + more;
      assert text[n - 1] == b[|b| - 1];
      if i + |e| == n {
        SameEnd(part, b, more, e, i);
        assert false;
      }
      LineStartsAfter(text, e, i, n);
      OccursInSuffix(part + b, more, e, i - n);
      EndMarkerIsLast(b, e, parts[1..], i - n);
    }
  }

  lemma EncodedIsTrailerFree(b: Bytes, e: Bytes, parts: seq<Bytes>)
    requires IsLine(b) && IsLine(e) && |b| < |e| && !EndsAlike(b, e) && parts != [] && AllClean(b, e, parts)
    ensures TrailerFree(b, e, Lines(b, e, parts))
  {
    var text := Lines(b, e, parts);
    FindMeaning(text, e);
    if Find(text, e).Some? { EndMarkerIsLast(b, e, parts, Find(text, e).value); }
  }

  // ---- Dashes ----

  ghost predicate OnlyDashes(name: Bytes) { forall k :: 0 <= k < |name| ==> name[k] == DASH }

  lemma {:induction false} ShiftedDashes(name: Bytes, k: nat)
    requires name + [DASH, DASH] == [DASH, DASH] + name && k < |name|
    ensures name[k] == DASH
    decreases k
  {
    var left, right := name + [DASH, DASH], [DASH, DASH] + name;
    assert left[k] == right[k];
    if k >= 2 { ShiftedDashes(name, k - 2); }
  }

  /** The boundary line ends the end marker exactly for a name of dashes. */
  lemma EndsAlikeIff(name: Bytes)
    ensures EndsAlike(Boundary(name), EndMarker(name)) <==> OnlyDashes(name)
  {
    var b, e := Boundary(name), EndMarker(name);
    var left, right := name + [DASH, DASH], [DASH, DASH] + name;
    assert e[2..] == left + [CR, LF] && b == right + [CR, LF];
    if EndsAlike(b, e) {
      assert left == (left + [CR, LF])[..|name| + 2] == (right + [CR, LF])[..|name| + 2] == right;
      forall k | 0 <= k < |name| ensures name[k] == DASH { ShiftedDashes(name, k); }
    }
    if OnlyDashes(name) { assert left == right; }
  }

  /** With such a name the end marker is taken for a boundary, and the last part keeps two dashes. */
  lemma LastPartWithDashes(name: Bytes, part: Bytes)
    requires LF !in name && OnlyDashes(name) && Clean(Boundary(name), EndMarker(name), part)
    ensures AllParts(Boundary(name), EndMarker(name), part + EndMarker(name)) == [part + [DASH, DASH]]
  {
    var b, e := Boundary(name), EndMarker(name);
    LinesOf(name);
    EndsAlikeIff(name);
    var long := part + [DASH, DASH];
    assert e == [DASH, DASH] + b by { assert e == e[..2] + e[2..]; }
    assert part + e == long + (b + []);
    FindMeaning(part, b);
    FindMeaning(long, b);
    if Find(long, b).Some? {
      var i := Find(long, b).value;
      LastByte(long, b, i);
      OccursInPrefix(part, [DASH, DASH], b, i);
      assert false;
    }
    SplitAfterPart(b, e, long, []);
    NothingInNothing(b);
    NothingInNothing(e);
    assert [long] + ([] + []) == [long];
  }

  lemma {:induction false} LinesWithDashes(name: Bytes, parts: seq<Bytes>)
    requires LF !in name && OnlyDashes(name) && parts != []
    requires AllClean(Boundary(name), EndMarker(name), parts)
    ensures AllParts(Boundary(name), EndMarker(name), Lines(Boundary(name), EndMarker(name), parts)) != parts
    decreases |parts|
  {
    var b, e := Boundary(name), EndMarker(name);
    LinesOf(name);
    if |parts| == 1 {
      LastPartWithDashes(name, parts[0]);
      assert |parts[0] + [DASH, DASH]| != |parts[0]|;
    } else {
      LinesWithDashes(name, parts[1..]);
      var more := Lines(b, e, parts[1..]);
      SplitAfterPart(b, e, parts[0], more);
      assert ([parts[0]] + AllParts(b, e, more))[1..] == AllParts(b, e, more);
    }
  }

  // ---- The round trip ----

  lemma EmptyIsClean(b: Bytes, e: Bytes, parts: seq<Bytes>)
    requires b != [] && e != [] && AllClean(b, e, parts)
    ensures AllClean(b, e, [[]] + parts)
  {
    NothingInNothing(b);
    NothingInNothing(e);
  }

  /** Any cut of an encoded body hands over the empty preamble and then the parts, up to the first rejection. */
  lemma RoundTrip(bad: Bytes -> bool, name: Bytes, parts: seq<Bytes>, chunks: seq<Bytes>)
    requires LF !in name && !OnlyDashes(name) && parts != []
    requires AllClean(Boundary(name), EndMarker(name), parts) && Concat(chunks) == Encode(name, parts)
    ensures Outcome(bad, Boundary(name), EndMarker(name), chunks) == Hand(bad, [], [[]] + parts)
  {
    var b, e := Boundary(name), EndMarker(name);
    LinesOf(name);
    EndsAlikeIff(name);
    EmptyIsClean(b, e, parts);
    EncodedIsTrailerFree(b, e, [[]] + parts);
    ChunkingIndependence(bad, b, e, chunks);
    WholeIsRead(e, Encode(name, parts));
    PartsOfLines(b, e, [[]] + parts);
  }

  /** The round trip works exactly for names that are not all dashes. */
  lemma RoundTripIff(name: Bytes, parts: seq<Bytes>)
    requires LF !in name && parts != [] && AllClean(Boundary(name), EndMarker(name), parts)
    ensures (forall chunks: seq<Bytes> :: Concat(chunks) == Encode(name, parts) ==>
               Outcome(NeverBad, Boundary(name), EndMarker(name), chunks) == ([[]] + parts, true))
            <==> !OnlyDashes(name)
  {
    var b, e, body := Boundary(name), EndMarker(name), Encode(name, parts);
    LinesOf(name);
    EmptyIsClean(b, e, parts);
    HandAll([], [[]] + parts);
    assert [] + ([[]] + parts) == [[]] + parts;
    if OnlyDashes(name) {
      LinesWithDashes(name, [[]] + parts);
      WholeIsRead(e, body);
      HandAll([], AllParts(b, e, body));
      assert [] + AllParts(b, e, body) == AllParts(b, e, body);
      var chunks := [body];
      assert Concat(chunks) == body + Concat([]) == body;
      assert Outcome(NeverBad, b, e, chunks) == (AllParts(b, e, body), true);
    } else {
      forall chunks: seq<Bytes> | Concat(chunks) == body
        ensures Outcome(NeverBad, b, e, chunks) == ([[]] + parts, true)
      {
        RoundTrip(NeverBad, name, parts, chunks);
      }
    }
  }
}
