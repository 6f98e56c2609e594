/**
  The incremental scanner of multipart request bodies: chunks are searched for the
  boundary, what is left over is carried to the next chunk, and the end marker closes
  the last part (section 5.1.1 of RFC 2046, section 4.1 of RFC 7578).
 */
module Multipart {
  import opened Prelude

  // ---- Searching ----

  predicate OccursAt(text: Bytes, needle: Bytes, i: nat) {
    i + |needle| <= |text| && text[i..i + |needle|] == needle
  }

  function FindFrom(text: Bytes, needle: Bytes, i: nat): (r: Option<nat>)
    requires i <= |text|
    ensures r.Some? ==> i <= r.value && r.value + |needle| <= |text|
    decreases |text| - i
  {
    if OccursAt(text, needle, i) then Some(i)
    else if i == |text| then None
    else FindFrom(text, needle, i + 1)
  }

  /** The first occurrence. */
  function Find(text: Bytes, needle: Bytes): (r: Option<nat>)
    ensures r.Some? ==> r.value + |needle| <= |text|
  {
    FindFrom(text, needle, 0)
  }

  function FindLastBelow(text: Bytes, needle: Bytes, n: nat): (r: Option<nat>)
    ensures r.Some? ==> r.value < n && r.value + |needle| <= |text|
  {
    if n == 0 then None
    else if OccursAt(text, needle, n - 1) then Some(n - 1)
    else FindLastBelow(text, needle, n - 1)
  }

  /** The last occurrence. */
  function FindLast(text: Bytes, needle: Bytes): (r: Option<nat>)
    ensures r.Some? ==> r.value + |needle| <= |text|
  {
    FindLastBelow(text, needle, |text| + 1)
  }

  lemma {:induction false} FindFromMeaning(text: Bytes, needle: Bytes, i: nat)
    requires i <= |text|
    ensures var r := FindFrom(text, needle, i);
            && (r.Some? ==> OccursAt(text, needle, r.value))
            && forall j: nat :: i <= j && OccursAt(text, needle, j) ==> r.Some? && r.value <= j
    decreases |text| - i
  {
    if !OccursAt(text, needle, i) && i < |text| { FindFromMeaning(text, needle, i + 1); }
  }

  /** `Find` is the least place of occurrence, if there is one. */
  lemma FindMeaning(text: Bytes, needle: Bytes)
    ensures var r := Find(text, needle);
            && (r.Some? ==> OccursAt(text, needle, r.value))
            && forall j: nat :: OccursAt(text, needle, j) ==> r.Some? && r.value <= j
  {
    FindFromMeaning(text, needle, 0);
  }

  lemma {:induction false} FindLastBelowMeaning(text: Bytes, needle: Bytes, n: nat)
    ensures var r := FindLastBelow(text, needle, n);
            && (r.Some? ==> OccursAt(text, needle, r.value))
            && forall j: nat :: j < n && OccursAt(text, needle, j) ==> r.Some? && j <= r.value
  {
    if n > 0 && !OccursAt(text, needle, n - 1) { FindLastBelowMeaning(text, needle, n - 1); }
  }

  /** `FindLast` is the greatest place of occurrence, if there is one. */
  lemma FindLastMeaning(text: Bytes, needle: Bytes)
    ensures var r := FindLast(text, needle);
            && (r.Some? ==> OccursAt(text, needle, r.value))
            && forall j: nat :: OccursAt(text, needle, j) ==> r.Some? && j <= r.value
  {
    FindLastBelowMeaning(text, needle, |text| + 1);
  }

  // ---- Parts ----

  /** Whether the header parser rejects a part; an empty part is passed over. */
  predicate Rejected(bad: Bytes -> bool, part: Bytes) { part != [] && bad(part) }

  /** Hand parts over one by one until one is rejected. */
  function Hand(bad: Bytes -> bool, handed: seq<Bytes>, parts: seq<Bytes>): (seq<Bytes>, bool)
    decreases |parts|
  {
    if parts == [] then (handed, true)
    else if Rejected(bad, parts[0]) then (handed + [parts[0]], false)
    else Hand(bad, handed + [parts[0]], parts[1..])
  }

  /** The texts before each boundary. */
  function Parts(b: Bytes, text: Bytes): seq<Bytes>
    requires b != []
    decreases |text|
  {
    match Find(text, b)
    case None => []
    case Some(i) => [text[..i]] + Parts(b, text[i + |b|..])
  }

  /** What follows the last boundary. */
  function Rest(b: Bytes, text: Bytes): Bytes
    requires b != []
    decreases |text|
  {
    match Find(text, b)
    case None => text
    case Some(i) => Rest(b, text[i + |b|..])
  }

  /** The last part, if the end marker is in what is left. */
  function Tail(e: Bytes, rest: Bytes): seq<Bytes> {
    match FindLast(rest, e)
    case None => []
    case Some(i) => [rest[..i]]
  }

  /** All parts of a text. */
  function AllParts(b: Bytes, e: Bytes, text: Bytes): seq<Bytes>
    requires b != []
  {
    Parts(b, text) + Tail(e, Rest(b, text))
  }

  function Concat(chunks: seq<Bytes>): Bytes {
    if chunks == [] then [] else chunks[0] + Concat(chunks[1..])
  }

  predicate Contains(text: Bytes, needle: Bytes) { FindLast(text, needle).Some? }

  /** The chunks that are read: up to the first one that holds the end marker. */
  function ReadOf(e: Bytes, chunks: seq<Bytes>): Bytes {
    if chunks == [] then []
    else if Contains(chunks[0], e) then chunks[0]
    else chunks[0] + ReadOf(e, chunks[1..])
  }

  lemma {:induction false} HandAppend(bad: Bytes -> bool, handed: seq<Bytes>, parts: seq<Bytes>, more: seq<Bytes>)
    ensures Hand(bad, handed, parts + more)
         == if Hand(bad, handed, parts).1 then Hand(bad, Hand(bad, handed, parts).0, more) else Hand(bad, handed, parts)
    decreases |parts|
  {
    if parts == [] {
      assert parts + more == more;
    } else {
      assert (parts + more)[1..] == parts[1..] + more;
      if !Rejected(bad, parts[0]) { HandAppend(bad, handed + [parts[0]], parts[1..], more); }
    }
  }

  lemma HandFirst(bad: Bytes -> bool, handed: seq<Bytes>, part: Bytes, parts: seq<Bytes>)
    ensures Hand(bad, handed, [part] + parts)
         == if Rejected(bad, part) then (handed + [part], false) else Hand(bad, handed + [part], parts)
  {
    assert ([part] + parts)[1..] == parts;
  }

  /** A boundary found in a text is still the first one when more follows. */
  lemma FindStable(text: Bytes, more: Bytes, b: Bytes)
    requires b != [] && Find(text, b).Some?
    ensures Find(text + more, b) == Find(text, b)
  {
    FindMeaning(text, b);
    FindMeaning(text + more, b);
    var i := Find(text, b).value;
    assert (text + more)[i..i + |b|] == text[i..i + |b|];
    assert OccursAt(text + more, b, i);
    var j := Find(text + more, b).value;
    assert (text + more)[j..j + |b|] == text[j..j + |b|];
    assert OccursAt(text, b, j);
  }

  /** Splitting goes on from what was left over. */
  lemma {:induction false} SplitAppend(b: Bytes, text: Bytes, more: Bytes)
    requires b != []
    ensures Parts(b, text + more) == Parts(b, text) + Parts(b, Rest(b, text) + more)
    ensures Rest(b, text + more) == Rest(b, Rest(b, text) + more)
    decreases |text|
  {
    match Find(text, b)
    case None => SplitAppendNone(b, text, more);
    case Some(i) =>
      FindStable(text, more, b);
      CutAppend(text, more, i, i + |b|);
      SplitAppend(b, text[i + |b|..], more);
      SplitOnce(b, text, i);
      SplitOnce(b, text + more, i);
      var next, left := Parts(b, text[i + |b|..]), Parts(b, Rest(b, text) + more);
      Assoc([text[..i]], next, left);
  }

  lemma SplitOnce(b: Bytes, text: Bytes, i: nat)
    requires b != [] && Find(text, b) == Some(i)
    ensures Parts(b, text) == [text[..i]] + Parts(b, text[i + |b|..]) && Rest(b, text) == Rest(b, text[i + |b|..])
  {
  }

  lemma CutAppend(text: Bytes, more: Bytes, i: nat, j: nat)
    requires i <= j <= |text|
    ensures (text + more)[j..] == text[j..] + more && (text + more)[..i] == text[..i]
  {
  }

  lemma SplitAppendNone(b: Bytes, text: Bytes, more: Bytes)
    requires b != [] && Find(text, b).None?
    ensures Parts(b, text + more) == Parts(b, text) + Parts(b, Rest(b, text) + more)
    ensures Rest(b, text + more) == Rest(b, Rest(b, text) + more)
  {
    var parts := Parts(b, text + more);
    assert [] + parts == parts;
  }

  /** What is left over holds no boundary. */
  lemma {:induction false} RestHasNone(b: Bytes, text: Bytes)
    requires b != []
    ensures Find(Rest(b, text), b).None?
    decreases |text|
  {
    if Find(text, b).Some? { RestHasNone(b, text[Find(text, b).value + |b|..]); }
  }

  /** After a rejection what follows does not matter. */
  lemma RejectedEarly(bad: Bytes -> bool, b: Bytes, e: Bytes, text: Bytes, more: Bytes)
    requires b != [] && !Hand(bad, [], Parts(b, text)).1
    ensures Hand(bad, [], AllParts(b, e, text + more)) == Hand(bad, [], Parts(b, text))
  {
    SplitAppend(b, text, more);
    var head, later, tail := Parts(b, text), Parts(b, Rest(b, text) + more), Tail(e, Rest(b, text + more));
    HandAppend(bad, [], head, later);
    HandAppend(bad, [], Parts(b, text + more), tail);
  }

  // ---- The scanner ----

  class GatewayContext {
    var partBuf: Option<Bytes>
    /** The parts handed to the header parser so far. */
    var handed: seq<Bytes>
    const bad: Bytes -> bool

    constructor (bad: Bytes -> bool)
      ensures partBuf == None && handed == [] && this.bad == bad
    {
      partBuf, handed := None, [];
      this.bad := bad;
    }

    /** The carried bytes; nothing carried is the empty text. */
    function Carried(): Bytes
      reads this
    {
      if partBuf.Some? then partBuf.value else []
    }

    method HandOver(part: Bytes) returns (ok: bool)
      modifies this`handed
      ensures handed == old(handed) + [part] && ok == !Rejected(bad, part)
    {
      handed := handed + [part];
      ok := part == [] || !bad(part);
    }

    /** Scan a chunk, together with what was carried over; `None` is the error of the header parser. */
    method ParsePart(b: Bytes, chunk: Bytes) returns (r: Option<bool>)
      requires b != []
      modifies this
      ensures (handed, r.Some?) == Hand(bad, old(handed), Parts(b, old(Carried()) + chunk))
      ensures r.Some? ==> Carried() == Rest(b, old(Carried()) + chunk)
      ensures r.Some? ==> (r.value <==> Parts(b, old(Carried()) + chunk) != [])
    {
      var bin := Carried() + chunk;
      partBuf := None;
      ghost var parts, rest := Parts(b, bin), Rest(b, bin);
      var parsed := false;
      while true
        invariant partBuf == None && Rest(b, bin) == rest
        invariant Hand(bad, handed, Parts(b, bin)) == Hand(bad, old(handed), parts)
        invariant parsed ==> parts != []
        invariant !parsed ==> Parts(b, bin) == parts
        decreases |bin|
      {
        var found := Find(bin, b);
        if found.None? {
          partBuf := Some(bin);
          return Some(parsed);
        }
        var index := found.value;
        SplitOnce(b, bin, index);
        HandFirst(bad, handed, bin[..index], Parts(b, bin[index + |b|..]));
        var ok := HandOver(bin[..index]);
        if !ok {
          return None;
        }
        parsed := true;
        if index + |b| >= |bin| {
          NothingInNothing(b);
          return Some(parsed);
        }
        bin := bin[index + |b|..];
      }
    }

    /** One more chunk of a body of which `text` has been scanned. */
    method ParseNext(b: Bytes, chunk: Bytes, ghost text: Bytes) returns (ok: bool)
      requires b != [] && Carried() == Rest(b, text) && (handed, true) == Hand(bad, [], Parts(b, text))
      modifies this
      ensures (handed, ok) == Hand(bad, [], Parts(b, text + chunk))
      ensures ok ==> Carried() == Rest(b, text + chunk)
    {
      SplitAppend(b, text, chunk);
      HandAppend(bad, [], Parts(b, text), Parts(b, Rest(b, text) + chunk));
      var r := ParsePart(b, chunk);
      ok := r.Some?;
    }

    /** Scan what is carried once more, then close the last part at the last end marker. */
    method ParsePartEnd(b: Bytes, e: Bytes) returns (ok: bool)
      requires b != [] && e != []
      modifies this
      ensures (handed, ok) == Hand(bad, old(handed), AllParts(b, e, old(Carried())))
    {
      ghost var text := Carried();
      HandAppend(bad, handed, Parts(b, text), Tail(e, Rest(b, text)));
      NothingInNothing(b);
      if partBuf.Some? {
        var buf := partBuf.value;
        partBuf := None;
        assert [] + buf == text;
        var r := ParsePart(b, buf);
        if r.None? {
          return false;
        }
      }
      assert Carried() == Rest(b, text);
      ok := true;
      if partBuf.Some? {
        var buf := partBuf.value;
        partBuf := None;
        var found := FindLast(buf, e);
        if found.Some? {
          ok := HandOver(buf[..found.value]);
        }
      } else {
        NothingInNothing(e);
      }
    }

    /** Chunk after chunk to the last one, then the end: the cuts leave no trace, whatever the body. */
    method ParseAll(b: Bytes, e: Bytes, chunks: seq<Bytes>) returns (ok: bool)
      requires b != [] && e != [] && partBuf == None && handed == []
      modifies this
      ensures (handed, ok) == Hand(bad, [], AllParts(b, e, Concat(chunks)))
    {
      var i := 0;
      ghost var text := [];
      assert chunks[0..] == chunks;
      while i < |chunks|
        invariant 0 <= i <= |chunks| && Concat(chunks) == text + Concat(chunks[i..])
        invariant (handed, true) == Hand(bad, [], Parts(b, text)) && Carried() == Rest(b, text)
      {
        var chunk := chunks[i];
        ghost var left := Concat(chunks[i + 1..]);
        assert chunks[i..][1..] == chunks[i + 1..];
        Assoc(text, chunk, left);
        ok := ParseNext(b, chunk, text);
        if !ok {
          RejectedEarly(bad, b, e, text + chunk, left);
          return;
        }
        text := text + chunk;
        i := i + 1;
      }
      assert text + [] == text;
      ok := ParseRest(b, e, text);
    }

    /** The end of a body of which `text` has been scanned. */
    method ParseRest(b: Bytes, e: Bytes, ghost text: Bytes) returns (ok: bool)
      requires b != [] && e != [] && Carried() == Rest(b, text) && (handed, true) == Hand(bad, [], Parts(b, text))
      modifies this
      ensures (handed, ok) == Hand(bad, [], AllParts(b, e, text))
    {
      HandAppend(bad, [], Parts(b, text), Tail(e, Rest(b, text)));
      RestHasNone(b, text);
      assert [] + Tail(e, Rest(b, text)) == Tail(e, Rest(b, text));
      ok := ParsePartEnd(b, e);
    }

    /** The request: chunk after chunk until one holds the end marker, then the end. */
    method ParseBody(b: Bytes, e: Bytes, chunks: seq<Bytes>) returns (ok: bool)
      requires b != [] && e != [] && partBuf == None && handed == []
      modifies this
      ensures (handed, ok) == Hand(bad, [], AllParts(b, e, ReadOf(e, chunks)))
    {
      var i := 0;
      ghost var text, left := [], ReadOf(e, chunks);
      assert chunks[0..] == chunks;
      while i < |chunks|
        invariant 0 <= i <= |chunks|
        invariant ReadOf(e, chunks) == text + left && left == ReadOf(e, chunks[i..])
        invariant (handed, true) == Hand(bad, [], Parts(b, text)) && Carried() == Rest(b, text)
      {
        var chunk := chunks[i];
        ReadStep(e, chunks, i);
        left := if Contains(chunk, e) then [] else ReadOf(e, chunks[i + 1..]);
        Assoc(text, chunk, left);
        ok := ParseNext(b, chunk, text);
        if !ok {
          RejectedEarly(bad, b, e, text + chunk, left);
          return;
        }
        text := text + chunk;
        if Contains(chunk, e) {
          break;
        }
        i := i + 1;
      }
      assert text + [] == text;
      ok := ParseRest(b, e, text);
    }
  }

  lemma NothingInNothing(needle: Bytes)
    requires needle != []
    ensures FindLast([], needle).None? && Find([], needle).None?
  {
    FindLastMeaning([], needle);
    FindMeaning([], needle);
  }

  lemma ReadStep(e: Bytes, chunks: seq<Bytes>, i: nat)
    requires i < |chunks|
    ensures ReadOf(e, chunks[i..])
         == chunks[i] + if Contains(chunks[i], e) then [] else ReadOf(e, chunks[i + 1..])
  {
    assert chunks[i..][1..] == chunks[i + 1..];
    assert chunks[i] + [] == chunks[i];
  }
}
