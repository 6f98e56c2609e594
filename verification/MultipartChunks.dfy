/**
  What the multipart scanner hands over does not depend on how a body is cut into
  chunks, exactly as long as no boundary and no end marker follows the first end marker.
 */
module MultipartChunks {
  import opened Prelude
  import opened Multipart

  /** What `ParseBody` leaves behind: the parts handed over, and whether all were accepted. */
  function Outcome(bad: Bytes -> bool, b: Bytes, e: Bytes, chunks: seq<Bytes>): (seq<Bytes>, bool)
    requires b != []
  {
    Hand(bad, [], AllParts(b, e, ReadOf(e, chunks)))
  }

  // ---- Chunking independence ----

  /** No boundary and no end marker ends later than the first end marker. */
  ghost predicate TrailerFree(b: Bytes, e: Bytes, body: Bytes) {
    Find(body, e).Some? ==> NothingAfter(b, e, body, Find(body, e).value + |e|)
  }

  ghost predicate NothingAfter(b: Bytes, e: Bytes, body: Bytes, m: nat) {
    forall i: nat :: (OccursAt(body, b, i) ==> i + |b| <= m) && (OccursAt(body, e, i) ==> i + |e| <= m)
  }

  /** An occurrence in a prefix is one in the whole, and the other way round if it fits. */
  lemma OccursInPrefix(prefix: Bytes, more: Bytes, needle: Bytes, i: nat)
    ensures OccursAt(prefix, needle, i) <==> OccursAt(prefix + more, needle, i) && i + |needle| <= |prefix|
  {
    if i + |needle| <= |prefix| { assert (prefix + more)[i..i + |needle|] == prefix[i..i + |needle|]; }
  }

  lemma OccursInSuffix(front: Bytes, text: Bytes, needle: Bytes, i: nat)
    ensures OccursAt(text, needle, i) <==> OccursAt(front + text, needle, |front| + i)
  {
    if i + |needle| <= |text| {
      assert (front + text)[|front| + i..|front| + i + |needle|] == text[i..i + |needle|];
    }
  }

  lemma {:induction false} ReadIsPrefix(e: Bytes, chunks: seq<Bytes>) returns (more: Bytes)
    ensures ReadOf(e, chunks) + more == Concat(chunks)
    ensures more == [] || Find(ReadOf(e, chunks), e).Some?
    decreases |chunks|
  {
    more := [];
    if chunks != [] {
      if Contains(chunks[0], e) {
        more := Concat(chunks[1..]);
        FindLastMeaning(chunks[0], e);
        FindMeaning(chunks[0], e);
      } else {
        more := ReadIsPrefix(e, chunks[1..]);
        Assoc(chunks[0], ReadOf(e, chunks[1..]), more);
        var tail := ReadOf(e, chunks[1..]);
        FindMeaning(tail, e);
        FindMeaning(chunks[0] + tail, e);
        if Find(tail, e).Some? { OccursInSuffix(chunks[0], tail, e, Find(tail, e).value); }
      }
    }
  }

  /** The text in front of the left-over; it ends with a boundary, if there was one. */
  lemma {:induction false} RestIsSuffix(b: Bytes, text: Bytes) returns (front: Bytes)
    requires b != []
    ensures front + Rest(b, text) == text
    ensures Parts(b, text) == [] ==> front == []
    ensures Parts(b, text) != [] ==> front != [] && front[|front| - 1] == b[|b| - 1]
    decreases |text|
  {
    match Find(text, b)
    case None => front := [];
    case Some(i) =>
      FindMeaning(text, b);
      LastMatches(text, b, i);
      SplitOnce(b, text, i);
      var tail := RestIsSuffix(b, text[i + |b|..]);
      front := Behind(text, i + |b|, tail, Rest(b, text));
  }

  lemma Behind(text: Bytes, n: nat, tail: Bytes, rest: Bytes) returns (front: Bytes)
    requires 0 < n <= |text| && tail + rest == text[n..]
    ensures front != [] && front + rest == text
    ensures front[|front| - 1] == if tail == [] then text[n - 1] else tail[|tail| - 1]
  {
    front := text[..n] + tail;
    assert text == text[..n] + text[n..];
  }

  lemma LastMatches(text: Bytes, b: Bytes, i: nat)
    requires b != [] && OccursAt(text, b, i)
    ensures text[i + |b| - 1] == b[|b| - 1]
  {
    assert text[i..i + |b|][|b| - 1] == text[i + |b| - 1];
  }

  /** Bytes after the left-over of a prefix: no boundary and no end marker in them, no difference. */
  lemma TrailingBytesIgnored(b: Bytes, e: Bytes, prefix: Bytes, more: Bytes, m: nat)
    requires b != [] && e != [] && m <= |prefix| && NothingAfter(b, e, prefix + more, m)
    ensures AllParts(b, e, prefix + more) == AllParts(b, e, prefix)
  {
    var rest := Rest(b, prefix);
    var front := RestIsSuffix(b, prefix);
    var body := prefix + more;
    assert front + (rest + more) == body;
    SplitAppend(b, prefix, more);
    RestHasNone(b, prefix);
    StillNone(b, e, rest, more, front, m);
    assert Parts(b, prefix) + [] == Parts(b, prefix);
    SameTail(e, rest, more, front, m, b);
  }

  lemma StillNone(b: Bytes, e: Bytes, rest: Bytes, more: Bytes, front: Bytes, m: nat)
    requires b != [] && m <= |front + rest| && NothingAfter(b, e, front + (rest + more), m) && Find(rest, b).None?
    ensures Find(rest + more, b).None?
  {
    FindMeaning(rest, b);
    FindMeaning(rest + more, b);
    if Find(rest + more, b).Some? {
      var j := Find(rest + more, b).value;
      OccursInSuffix(front, rest + more, b, j);
      OccursInPrefix(rest, more, b, j);
    }
  }

  lemma SameTail(e: Bytes, rest: Bytes, more: Bytes, front: Bytes, m: nat, b: Bytes)
    requires e != [] && m <= |front + rest| && NothingAfter(b, e, front + (rest + more), m)
    ensures Tail(e, rest + more) == Tail(e, rest)
  {
    FindLastMeaning(rest, e);
    FindLastMeaning(rest + more, e);
    forall j: nat ensures OccursAt(rest + more, e, j) <==> OccursAt(rest, e, j) {
      OccursInPrefix(rest, more, e, j);
      if OccursAt(rest + more, e, j) { OccursInSuffix(front, rest + more, e, j); }
    }
    if FindLast(rest, e).Some? {
      var i := FindLast(rest, e).value;
      assert OccursAt(rest + more, e, i);
      assert (rest + more)[..i] == rest[..i];
    }
  }

  /** The first end marker of a prefix is that of the whole. */
  lemma FirstEndInPrefix(e: Bytes, prefix: Bytes, more: Bytes)
    requires e != [] && Find(prefix, e).Some?
    ensures Find(prefix + more, e) == Find(prefix, e)
  {
    FindStable(prefix, more, e);
  }

  lemma WholeIsRead(e: Bytes, body: Bytes)
    ensures ReadOf(e, [body]) == body
  {
    assert body + [] == body;
  }

  /** However the body is cut: the same parts are handed over as from the body in one piece. */
  lemma ChunkingIndependence(bad: Bytes -> bool, b: Bytes, e: Bytes, chunks: seq<Bytes>)
    requires b != [] && e != [] && TrailerFree(b, e, Concat(chunks))
    ensures Outcome(bad, b, e, chunks) == Outcome(bad, b, e, [Concat(chunks)])
  {
    var text := ReadOf(e, chunks);
    var more := ReadIsPrefix(e, chunks);
    WholeIsRead(e, Concat(chunks));
    if more == [] {
      assert text == Concat(chunks);
    } else {
      FirstEndInPrefix(e, text, more);
      TrailingBytesIgnored(b, e, text, more, Find(text, e).value + |e|);
    }
  }

  // ---- Exactly then ----

  const LF: byte := 10
  const CR: byte := 13
  const DASH: byte := 45

  /** The delimiter line "--name" and the closing line "--name--". */
  function Boundary(name: Bytes): Bytes { [DASH, DASH] + name + [CR, LF] }

  function EndMarker(name: Bytes): Bytes { [DASH, DASH] + name + [DASH, DASH, CR, LF] }

  /** A line: its line feed comes last and only there. */
  ghost predicate IsLine(x: Bytes) {
    x != [] && x[|x| - 1] == LF && forall k :: 0 <= k < |x| - 1 ==> x[k] != LF
  }

  lemma LinesOf(name: Bytes)
    requires LF !in name
    ensures IsLine(Boundary(name)) && IsLine(EndMarker(name)) && |EndMarker(name)| == |Boundary(name)| + 2
  {
  }

  /** A line that occurs across the end of a line feed cannot be: it starts after it, or ends there. */
  lemma LineStartsAfter(text: Bytes, x: Bytes, i: nat, n: nat)
    requires IsLine(x) && OccursAt(text, x, i) && 0 < n <= |text| && text[n - 1] == LF && i + |x| > n
    ensures i >= n
  {
    assert forall k :: 0 <= k < |x| ==> x[k] == text[i..i + |x|][k] == text[i + k];
  }

  /** Anything after the first end marker is seen from the left-over of what stands before. */
  lemma LaterOccurrence(b: Bytes, x: Bytes, prefix: Bytes, more: Bytes, i: nat)
    requires IsLine(b) && IsLine(x) && OccursAt(prefix + more, x, i) && i + |x| > |prefix|
    ensures exists j: nat :: OccursAt(Rest(b, prefix) + more, x, j) && j + |x| > |Rest(b, prefix)|
  {
    var front := RestIsSuffix(b, prefix);
    var rest := Rest(b, prefix);
    assert front + (rest + more) == prefix + more;
    if front != [] { LineStartsAfter(prefix + more, x, i, |front|); }
    OccursInSuffix(front, rest + more, x, i - |front|);
    assert OccursAt(rest + more, x, i - |front|);
  }

  /** The part that the end marker closes is shorter than any part closed later. */
  lemma TailIsShort(b: Bytes, e: Bytes, rest: Bytes, more: Bytes)
    requires b != [] && e != [] && |e| >= |b| && Find(rest, b).None? && Find(rest + more, b).Some?
    ensures Tail(e, rest) == [] || |Tail(e, rest)[0]| < Find(rest + more, b).value
  {
    FindLastMeaning(rest, e);
    FindMeaning(rest, b);
    FindMeaning(rest + more, b);
    OccursInPrefix(rest, more, b, Find(rest + more, b).value);
  }

  lemma TailGrows(e: Bytes, rest: Bytes, more: Bytes, j: nat)
    requires e != [] && OccursAt(rest + more, e, j) && j + |e| > |rest|
    ensures Tail(e, rest + more) != Tail(e, rest)
  {
    FindLastMeaning(rest, e);
    FindLastMeaning(rest + more, e);
    var i := FindLast(rest + more, e).value;
    assert |Tail(e, rest + more)[0]| == i;
    if Tail(e, rest) != [] { assert |Tail(e, rest)[0]| == FindLast(rest, e).value; }
  }

  /** A boundary or an end marker that ends later changes the parts. */
  lemma LaterLineChangesParts(b: Bytes, e: Bytes, prefix: Bytes, more: Bytes, i: nat, x: Bytes)
    requires IsLine(b) && IsLine(e) && |e| >= |b| && (x == b || x == e)
    requires OccursAt(prefix + more, x, i) && i + |x| > |prefix|
    ensures AllParts(b, e, prefix + more) != AllParts(b, e, prefix)
  {
    var rest, parts := Rest(b, prefix), Parts(b, prefix);
    SplitAppend(b, prefix, more);
    RestHasNone(b, prefix);
    LaterOccurrence(b, x, prefix, more, i);
    var j: nat :| OccursAt(rest + more, x, j) && j + |x| > |rest|;
    var all, short := AllParts(b, e, prefix + more), AllParts(b, e, prefix);
    if Find(rest + more, b).Some? {
      TailIsShort(b, e, rest, more);
      assert all[|parts|] == (rest + more)[..Find(rest + more, b).value];
      if Tail(e, rest) != [] { assert short[|parts|] == Tail(e, rest)[0]; }
    } else {
      FindMeaning(rest + more, b);
      TailGrows(e, rest, more, j);
      assert Parts(b, rest + more) == [];
      assert all == parts + Tail(e, rest + more);
      assert all[|parts|..] == Tail(e, rest + more) && short[|parts|..] == Tail(e, rest);
    }
  }

  /** A header parser that accepts every part. */
  predicate NeverBad(part: Bytes) { false }

  /** A parser that accepts everything is handed everything. */
  lemma {:induction false} HandAll(handed: seq<Bytes>, parts: seq<Bytes>)
    ensures Hand(NeverBad, handed, parts) == (handed + parts, true)
    decreases |parts|
  {
    if parts == [] {
      assert handed + parts == handed;
    } else {
      HandAll(handed + [parts[0]], parts[1..]);
      assert handed + [parts[0]] + parts[1..] == handed + parts;
    }
  }

  lemma AllHanded(parts: seq<Bytes>)
    ensures Hand(NeverBad, [], parts) == (parts, true)
  {
    HandAll([], parts);
    assert [] + parts == parts;
  }

  /** Reading stops after the chunk with the first end marker. */
  lemma FirstChunkIsRead(e: Bytes, body: Bytes)
    requires e != [] && Find(body, e).Some?
    ensures var m := Find(body, e).value + |e|; ReadOf(e, [body[..m], body[m..]]) == body[..m]
  {
    var m := Find(body, e).value + |e|;
    assert body[..m] + body[m..] == body;
    FindMeaning(body, e);
    OccursInPrefix(body[..m], body[m..], e, Find(body, e).value);
    FindLastMeaning(body[..m], e);
  }

  /** How a body with something after its end marker is cut to tell the difference. */
  lemma CutAfterEndMarker(b: Bytes, e: Bytes, body: Bytes)
    requires IsLine(b) && IsLine(e) && |e| >= |b| && !TrailerFree(b, e, body)
    ensures var m := Find(body, e).value + |e|;
            Outcome(NeverBad, b, e, [body[..m], body[m..]]) != Outcome(NeverBad, b, e, [body])
  {
    var m := Find(body, e).value + |e|;
    var prefix, more := body[..m], body[m..];
    assert prefix + more == body;
    FirstChunkIsRead(e, body);
    WholeIsRead(e, body);
    var i: nat :| (OccursAt(body, b, i) && i + |b| > m) || (OccursAt(body, e, i) && i + |e| > m);
    LaterLineChangesParts(b, e, prefix, more, i, if OccursAt(body, b, i) && i + |b| > m then b else e);
    AllHanded(AllParts(b, e, prefix));
    AllHanded(AllParts(b, e, body));
  }

  lemma CutsConcat(body: Bytes, m: nat)
    requires m <= |body|
    ensures Concat([body[..m], body[m..]]) == body
  {
    assert [body[..m], body[m..]][1..] == [body[m..]];
    assert Concat([body[m..]]) == body[m..] + [] == body[m..];
    assert body[..m] + body[m..] == body;
  }

  /** However the body is cut into chunks, the same parts are handed over as for the whole body. */
  ghost predicate EveryCutAgrees(b: Bytes, e: Bytes, body: Bytes)
    requires b != [] && e != []
  {
    forall chunks: seq<Bytes> :: Concat(chunks) == body ==>
      Outcome(NeverBad, b, e, chunks) == Outcome(NeverBad, b, e, [body])
  }

  lemma TrailerFreeAgrees(b: Bytes, e: Bytes, body: Bytes)
    requires IsLine(b) && IsLine(e) && TrailerFree(b, e, body)
    ensures EveryCutAgrees(b, e, body)
  {
    forall chunks: seq<Bytes> | Concat(chunks) == body
      ensures Outcome(NeverBad, b, e, chunks) == Outcome(NeverBad, b, e, [body])
    {
      ChunkingIndependence(NeverBad, b, e, chunks);
    }
  }

  lemma TrailerDisagrees(b: Bytes, e: Bytes, body: Bytes)
    requires IsLine(b) && IsLine(e) && |e| >= |b| && !TrailerFree(b, e, body)
    ensures !EveryCutAgrees(b, e, body)
  {
    CutAfterEndMarker(b, e, body);
    CutsConcat(body, Find(body, e).value + |e|);
  }

  /** For a boundary without line feed: every cut gives the same parts exactly if the body is trailer-free. */
  lemma ChunkingIndependentIff(name: Bytes, body: Bytes)
    requires LF !in name
    ensures EveryCutAgrees(Boundary(name), EndMarker(name), body)
       <==> TrailerFree(Boundary(name), EndMarker(name), body)
  {
    LinesOf(name);
    var b, e := Boundary(name), EndMarker(name);
    if TrailerFree(b, e, body) { TrailerFreeAgrees(b, e, body); } else { TrailerDisagrees(b, e, body); }
  }
}
