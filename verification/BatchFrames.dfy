/**
  What a client makes of a batch response: the parts are framed by their lengths, so the
  body falls apart into the loaded files again.
 */
module BatchFrames {
  import opened Prelude
  import opened BatchLoader

  // ---- One frame ----

  function FromLittleEndian(b: Bytes): nat {
    if b == [] then 0 else b[0] as nat + 256 * FromLittleEndian(b[1..])
  }

  function Pow256(n: nat): (p: nat)
    ensures p > 0
  {
    if n == 0 then 1 else 256 * Pow256(n - 1)
  }

  lemma ModSplit(n: nat, m: nat)
    requires m > 0
    ensures n % 256 + 256 * ((n / 256) % m) == n % (256 * m)
  {
    var q, low := n / 256, n % 256;
    var t, u := q / m, q % m;
    assert q == m * t + u;
    assert n == (256 * m) * t + (256 * u + low);
    ModUnique(n, 256 * m, t, 256 * u + low);
  }

  lemma ModUnique(n: nat, d: nat, t: nat, r: nat)
    requires d > 0 && r < d && n == d * t + r
    ensures n % d == r
  {
    var k := n / d - t;
    assert n == d * (n / d) + n % d;
    assert d * k == r - n % d;
    Multiple(d, k);
  }

  lemma Multiple(d: int, k: int)
    requires d > 0
    ensures k > 0 ==> d * k >= d
    ensures k < 0 ==> d * k <= -d
  {
  }

  /** Of a number written in `width` bytes the remainder can be read back. */
  lemma {:induction false} LittleEndianReadsBack(n: nat, width: nat)
    ensures FromLittleEndian(LittleEndian(n, width)) == n % Pow256(width)
    decreases width
  {
    if width > 0 {
      FirstByte(n, width);
      LittleEndianReadsBack(n / 256, width - 1);
      ModSplit(n, Pow256(width - 1));
    }
  }

  lemma FirstByte(n: nat, width: nat)
    requires width > 0
    ensures FromLittleEndian(LittleEndian(n, width))
         == n % 256 + 256 * FromLittleEndian(LittleEndian(n / 256, width - 1))
  {
    var b, more := LittleEndian(n, width), LittleEndian(n / 256, width - 1);
    assert b[1..] == more;
  }

  lemma Widths()
    ensures Pow256(2) == 0x1_0000 && Pow256(4) == 0x1_0000_0000
  {
    assert Pow256(1) == 256;
    assert Pow256(2) == 256 * Pow256(1);
    assert Pow256(3) == 256 * Pow256(2);
  }

  /** The first file of a body, and what follows it. */
  function TakeFrame(body: Bytes): Option<((Bytes, Bytes), Bytes)> {
    if |body| < 2 then None
    else
      var n := FromLittleEndian(body[..2]);
      if |body| < n + 6 then None
      else
        var m := FromLittleEndian(body[n + 2..n + 6]);
        if |body| < n + 6 + m then None
        else Some(((body[2..n + 2], body[n + 6..n + 6 + m]), body[n + 6 + m..]))
  }

  predicate Fits(file: (Bytes, Bytes)) { |file.0| < 0x1_0000 && |file.1| < 0x1_0000_0000 }

  lemma FrameLayout(path: Bytes, content: Bytes, rest: Bytes)
    ensures var n, m, body := |path|, |content|, Frame(path, content) + rest;
            && body[..2] == LittleEndian(n, 2) && body[2..n + 2] == path
            && body[n + 2..n + 6] == LittleEndian(m, 4) && body[n + 6..n + 6 + m] == content
            && body[n + 6 + m..] == rest
  {
  }

  /** A frame is read back exactly when its lengths fit in their fields. */
  lemma FrameReadsBack(path: Bytes, content: Bytes, rest: Bytes)
    ensures TakeFrame(Frame(path, content) + rest) == Some(((path, content), rest)) <==> Fits((path, content))
  {
    if Fits((path, content)) { FittingFrame(path, content, rest); } else { OverlongFrame(path, content, rest); }
  }

  lemma FittingFrame(path: Bytes, content: Bytes, rest: Bytes)
    requires Fits((path, content))
    ensures TakeFrame(Frame(path, content) + rest) == Some(((path, content), rest))
  {
    LengthFields(path, content, rest);
    FrameLayout(path, content, rest);
    TakeFrameOf(Frame(path, content) + rest, |path|, |content|);
  }

  lemma OverlongFrame(path: Bytes, content: Bytes, rest: Bytes)
    requires !Fits((path, content))
    ensures TakeFrame(Frame(path, content) + rest) != Some(((path, content), rest))
  {
    LengthFields(path, content, rest);
    TakenSizes(Frame(path, content) + rest);
  }

  lemma LengthFields(path: Bytes, content: Bytes, rest: Bytes)
    ensures var n, body := |path|, Frame(path, content) + rest;
            && FromLittleEndian(body[..2]) == n % 0x1_0000
            && FromLittleEndian(body[n + 2..n + 6]) == |content| % 0x1_0000_0000
  {
    FrameLayout(path, content, rest);
    LittleEndianReadsBack(|path|, 2);
    LittleEndianReadsBack(|content|, 4);
    Widths();
  }

  lemma TakeFrameOf(body: Bytes, n: nat, m: nat)
    requires n + 6 + m <= |body| && FromLittleEndian(body[..2]) == n && FromLittleEndian(body[n + 2..n + 6]) == m
    ensures TakeFrame(body) == Some(((body[2..n + 2], body[n + 6..n + 6 + m]), body[n + 6 + m..]))
  {
  }

  lemma TakenSizes(body: Bytes)
    ensures match TakeFrame(body)
            case None => true
            case Some((file, _)) =>
              var n := |file.0|;
              |body| >= n + 6 && n == FromLittleEndian(body[..2]) && |file.1| == FromLittleEndian(body[n + 2..n + 6])
  {
  }

  // ---- The whole body ----

  function ReadBody(body: Bytes): Option<seq<(Bytes, Bytes)>>
    decreases |body|
  {
    if body == [] then Some([])
    else
      match TakeFrame(body)
      case None => None
      case Some((file, rest)) =>
        match ReadBody(rest)
        case None => None
        case Some(files) => Some([file] + files)
  }

  function Frames(files: seq<(Bytes, Bytes)>): Bytes {
    if files == [] then [] else Frame(files[0].0, files[0].1) + Frames(files[1..])
  }

  lemma {:induction false} FramesReadBack(files: seq<(Bytes, Bytes)>)
    requires forall i :: 0 <= i < |files| ==> Fits(files[i])
    ensures ReadBody(Frames(files)) == Some(files)
    decreases |files|
  {
    if files != [] {
      FrameReadsBack(files[0].0, files[0].1, Frames(files[1..]));
      FramesReadBack(files[1..]);
      assert files == [files[0]] + files[1..];
    }
  }

  lemma {:induction false} FramesLast(files: seq<(Bytes, Bytes)>, file: (Bytes, Bytes))
    ensures Frames(files + [file]) == Frames(files) + Frame(file.0, file.1)
    decreases |files|
  {
    if files == [] {
      assert Frames([file][1..]) == [] && [] + [file] == [file];
      assert Frame(file.0, file.1) + [] == [] + Frame(file.0, file.1);
    } else {
      assert (files + [file])[1..] == files[1..] + [file];
      FramesLast(files[1..], file);
      Assoc(Frame(files[0].0, files[0].1), Frames(files[1..]), Frame(file.0, file.1));
    }
  }

  lemma {:induction false} JoinedFrames(parts: seq<Option<Bytes>>, files: seq<(Bytes, Bytes)>)
    requires |parts| == |files|
    requires forall i :: 0 <= i < |parts| ==> parts[i] == Some(Frame(files[i].0, files[i].1))
    ensures JoinParts(parts) == Frames(files)
    decreases |parts|
  {
    if parts != [] {
      var last := |parts| - 1;
      JoinedFrames(parts[..last], files[..last]);
      FramesLast(files[..last], files[last]);
      assert files == files[..last] + [files[last]];
    }
  }

  // ---- Runs ----

  /** What a task wrote is the frame of what it read. */
  lemma {:induction false} PartsAreFrames(tasks: seq<File>, capacity: nat, steps: seq<Step>, i: nat)
    requires IsRun(tasks, capacity, steps) && i < |tasks| && After(tasks, capacity, steps).parts[i].Some?
    ensures exists content :: Load(i, Some(content)) in steps
                           && After(tasks, capacity, steps).parts[i] == Some(Frame(tasks[i].path, content))
    decreases |steps|
  {
    var before, step := steps[..|steps| - 1], steps[|steps| - 1];
    assert steps == before + [step];
    if step.Load? && step.i == i && step.content.Some? {
      assert Load(i, Some(step.content.value)) in steps;
    } else {
      PartsAreFrames(tasks, capacity, before, i);
    }
  }

  /**
    A body that is answered, read as frames, gives every file in the order of the
    request, each with the content its task read.
   */
  lemma ClientReadsFiles(tasks: seq<File>, capacity: nat, steps: seq<Step>) returns (files: seq<(Bytes, Bytes)>)
    requires IsRun(tasks, capacity, steps)
    requires var s := After(tasks, capacity, steps); s.answer.Some? && s.answer.value.Body?
    requires forall i :: 0 <= i < |tasks| ==> |tasks[i].path| < 0x1_0000
    requires forall step :: step in steps && step.Load? && step.content.Some? ==> |step.content.value| < 0x1_0000_0000
    ensures ReadBody(After(tasks, capacity, steps).answer.value.bytes) == Some(files)
    ensures |files| == |tasks|
    ensures forall i :: 0 <= i < |files| ==> files[i].0 == tasks[i].path && Load(i, Some(files[i].1)) in steps
  {
    AnswerIsErrorOrFullBody(tasks, capacity, steps);
    var s := After(tasks, capacity, steps);
    files := FilesRead(tasks, capacity, steps, |tasks|);
    assert s.parts[..|tasks|] == s.parts;
    JoinedFrames(s.parts, files);
    FramesReadBack(files);
  }

  lemma {:induction false} FilesRead(tasks: seq<File>, capacity: nat, steps: seq<Step>, n: nat)
    returns (files: seq<(Bytes, Bytes)>)
    requires IsRun(tasks, capacity, steps) && n <= |tasks|
    requires forall i :: 0 <= i < n ==> After(tasks, capacity, steps).parts[i].Some?
    ensures |files| == n
    ensures forall i :: 0 <= i < n ==> files[i].0 == tasks[i].path && Load(i, Some(files[i].1)) in steps
    ensures forall i :: 0 <= i < n ==>
              After(tasks, capacity, steps).parts[i] == Some(Frame(files[i].0, files[i].1))
    decreases n
  {
    if n == 0 {
      files := [];
    } else {
      var front := FilesRead(tasks, capacity, steps, n - 1);
      PartsAreFrames(tasks, capacity, steps, n - 1);
      var content :| Load(n - 1, Some(content)) in steps
                  && After(tasks, capacity, steps).parts[n - 1] == Some(Frame(tasks[n - 1].path, content));
      files := front + [(tasks[n - 1].path, content)];
    }
  }
}
