/**
  The concurrent loader of batch requests: one task per file writes its part into a
  bounded channel, an atomic countdown decides who sends the finish, and the response
  stage collects, checks and orders the parts. Every interleaving of the steps is a run.
 */
module BatchLoader {
  import opened Prelude

  /** A file to load: its path below the root, and the size its metadata gave. */
  datatype File = File(path: Bytes, size: nat)

  // ---- The plan: empty files are skipped ----

  function TasksOf(files: seq<File>): (tasks: seq<File>)
    ensures |tasks| <= |files|
    ensures forall t :: t in tasks ==> t.size > 0
  {
    if files == [] then []
    else
      var rest := TasksOf(files[..|files| - 1]);
      if files[|files| - 1].size == 0 then rest else rest + [files[|files| - 1]]
  }

  /** What the part of a file weighs if it reads at its declared size. */
  function Weight(f: File): nat { 6 + |f.path| + f.size }

  function Total(tasks: seq<File>): nat {
    if tasks == [] then 0 else Total(tasks[..|tasks| - 1]) + Weight(tasks[|tasks| - 1])
  }

  method Plan(files: seq<File>) returns (tasks: seq<File>, total: nat)
    ensures tasks == TasksOf(files) && total == Total(tasks)
  {
    tasks, total := [], 0;
    var i := 0;
    while i < |files|
      invariant 0 <= i <= |files|
      invariant tasks == TasksOf(files[..i]) && total == Total(tasks)
    {
      TasksNext(files, i);
      if files[i].size != 0 {
        TotalNext(tasks, files[i]);
        tasks, total := tasks + [files[i]], total + Weight(files[i]);
      }
      i := i + 1;
    }
    assert files[..i] == files;
  }

  lemma TasksNext(files: seq<File>, i: nat)
    requires i < |files|
    ensures TasksOf(files[..i + 1]) == TasksOf(files[..i]) + if files[i].size == 0 then [] else [files[i]]
  {
    assert files[..i + 1][..i] == files[..i];
  }

  /** Every file that is not empty becomes a task, in the order of the files, and no other. */
  lemma {:induction false} TasksInOrder(files: seq<File>, i: nat)
    requires i < |files|
    ensures TasksOf(files[..i]) <= TasksOf(files[..i + 1]) <= TasksOf(files)
    ensures var n := |TasksOf(files[..i])|;
            if files[i].size == 0 then |TasksOf(files[..i + 1])| == n
            else |TasksOf(files[..i + 1])| == n + 1 && TasksOf(files)[n] == files[i]
    decreases |files|
  {
    TasksNext(files, i);
    var front := files[..|files| - 1];
    if i == |front| {
      assert files[..i + 1] == files;
    } else {
      Shorter(files, |front|, i);
      Shorter(files, |front|, i + 1);
      TasksInOrder(front, i);
    }
  }

  lemma Shorter<T>(s: seq<T>, n: nat, i: nat)
    requires i <= n <= |s|
    ensures s[..n][..i] == s[..i]
  {
  }

  lemma TotalNext(tasks: seq<File>, f: File)
    ensures Total(tasks + [f]) == Total(tasks) + Weight(f)
  {
    assert (tasks + [f])[..|tasks|] == tasks;
  }

  /** A number in little-endian bytes, truncated to `width` of them. */
  function LittleEndian(n: nat, width: nat): (b: Bytes)
    ensures |b| == width
  {
    if width == 0 then [] else [(n % 256) as byte] + LittleEndian(n / 256, width - 1)
  }

  /** A file's part: path length in two bytes, path, content length in four bytes, content. */
  function Frame(path: Bytes, content: Bytes): (part: Bytes)
    ensures |part| == 6 + |path| + |content|
  {
    LittleEndian(|path|, 2) + path + LittleEndian(|content|, 4) + content
  }

  // ---- States and steps ----

  datatype Msg = Part(index: nat, bytes: Bytes) | Finish

  /** A task loads, writes its part, subtracts, and perhaps sends the finish. */
  datatype Stage = Loading | Writing(part: Bytes) | Written(weight: nat) | Finishing | Ended

  datatype Answer = Failed | Body(bytes: Bytes)

  /** `parts` records what each task has read; `sent` all that ever entered the channel. */
  datatype State = State(
    stages: seq<Stage>,
    parts: seq<Option<Bytes>>,
    unload: nat,
    sent: seq<Msg>,
    taken: nat,
    buf: seq<(nat, Bytes)>,
    answer: Option<Answer>,
    gone: bool)

  datatype Step =
    | Load(i: nat, content: Option<Bytes>)
    | Write(i: nat)
    | Subtract(i: nat)
    | SendFinish(i: nat)
    | Receive
    | Hangup

  function Init(tasks: seq<File>): State {
    State(seq(|tasks|, i => Loading), seq(|tasks|, i => None), Total(tasks) % U64, [], 0, [], None, false)
  }

  ghost predicate Sized(tasks: seq<File>, s: State) { |s.stages| == |s.parts| == |tasks| }

  /** A send waits for room in the channel; without a receiver it fails at once. */
  predicate CanSend(s: State, capacity: nat) { s.gone || |s.sent| - s.taken < capacity }

  predicate Enabled(tasks: seq<File>, capacity: nat, s: State, step: Step) {
    match step
    case Load(i, _) => i < |s.stages| && s.stages[i].Loading?
    case Write(i) => i < |s.stages| && s.stages[i].Writing? && CanSend(s, capacity)
    case Subtract(i) => i < |s.stages| && s.stages[i].Written?
    case SendFinish(i) => i < |s.stages| && s.stages[i].Finishing? && CanSend(s, capacity)
    case Receive => tasks != [] && !s.gone && s.answer.None? && s.taken < |s.sent|
    case Hangup => !s.gone
  }

  function SizeOf(buf: seq<(nat, Bytes)>): nat {
    if buf == [] then 0 else SizeOf(buf[..|buf| - 1]) + |buf[|buf| - 1].1|
  }

  function InsertPart(buf: seq<(nat, Bytes)>, part: (nat, Bytes)): seq<(nat, Bytes)> {
    if buf == [] then [part]
    else if part.0 <= buf[0].0 then [part] + buf
    else [buf[0]] + InsertPart(buf[1..], part)
  }

  /** The buffer ordered by file index. */
  function Sort(buf: seq<(nat, Bytes)>): seq<(nat, Bytes)> {
    if buf == [] then [] else InsertPart(Sort(buf[..|buf| - 1]), buf[|buf| - 1])
  }

  function Join(buf: seq<(nat, Bytes)>): Bytes {
    if buf == [] then [] else Join(buf[..|buf| - 1]) + buf[|buf| - 1].1
  }

  /** The checks on the first finish: enough parts, of the right size in all. */
  function Conclude(tasks: seq<File>, buf: seq<(nat, Bytes)>): Answer {
    if |buf| < |tasks| then Failed
    else if SizeOf(buf) != Total(tasks) then Failed
    else Body(Join(Sort(buf)))
  }

  function Apply(tasks: seq<File>, capacity: nat, s: State, step: Step): State
    requires Sized(tasks, s) && Enabled(tasks, capacity, s, step)
  {
    match step
    case Load(i, content) =>
      if content.None? then s.(stages := s.stages[i := Finishing])
      else
        var part := Frame(tasks[i].path, content.value);
        s.(stages := s.stages[i := Writing(part)], parts := s.parts[i := Some(part)])
    case Write(i) =>
      if s.gone then s.(stages := s.stages[i := Ended])
      else
        var part := s.stages[i].part;
        s.(stages := s.stages[i := Written(|part|)], sent := s.sent + [Part(i, part)])
    case Subtract(i) =>
      var weight := s.stages[i].weight;
      s.(stages := s.stages[i := if s.unload == weight then Finishing else Ended], unload := Minus(s.unload, weight))
    case SendFinish(i) =>
      s.(stages := s.stages[i := Ended], sent := if s.gone then s.sent else s.sent + [Finish])
    case Receive =>
      (match s.sent[s.taken]
       case Part(i, bytes) => s.(taken := s.taken + 1, buf := s.buf + [(i, bytes)])
       case Finish => s.(taken := s.taken + 1, answer := Some(Conclude(tasks, s.buf))))
    case Hangup => s.(gone := true)
  }

  /** A run: every step is enabled where it is taken. */
  ghost predicate IsRun(tasks: seq<File>, capacity: nat, steps: seq<Step>)
    decreases |steps|, 0
  {
    steps == [] || (
      && IsRun(tasks, capacity, steps[..|steps| - 1])
      && Enabled(tasks, capacity, After(tasks, capacity, steps[..|steps| - 1]), steps[|steps| - 1]))
  }

  ghost function After(tasks: seq<File>, capacity: nat, steps: seq<Step>): (s: State)
    requires IsRun(tasks, capacity, steps)
    ensures Sized(tasks, s)
    decreases |steps|, 1
  {
    if steps == [] then Init(tasks)
    else Apply(tasks, capacity, After(tasks, capacity, steps[..|steps| - 1]), steps[|steps| - 1])
  }

  // ---- Ordering the parts ----

  ghost predicate Increasing(buf: seq<(nat, Bytes)>) {
    forall j, k :: 0 <= j < k < |buf| ==> buf[j].0 <= buf[k].0
  }

  lemma {:induction false} InsertContents(buf: seq<(nat, Bytes)>, part: (nat, Bytes))
    ensures multiset(InsertPart(buf, part)) == multiset(buf) + multiset{part}
    decreases |buf|
  {
    if buf != [] {
      InsertContents(buf[1..], part);
      assert buf == [buf[0]] + buf[1..];
    }
  }

  /** The first index does not drop below the smaller of the two. */
  lemma {:induction false} InsertIncreasing(buf: seq<(nat, Bytes)>, part: (nat, Bytes), low: nat)
    requires Increasing(buf) && low <= part.0 && (buf != [] ==> low <= buf[0].0)
    ensures Increasing([(low, [])] + InsertPart(buf, part))
    decreases |buf|
  {
    if buf != [] && part.0 > buf[0].0 {
      InsertIncreasing(buf[1..], part, buf[0].0);
      var tail := [(buf[0].0, [])] + InsertPart(buf[1..], part);
      forall j, k | 0 <= j < k < |tail| + 1
        ensures ([(low, [])] + InsertPart(buf, part))[j].0 <= ([(low, [])] + InsertPart(buf, part))[k].0
      {
        assert tail[0].0 <= tail[k - 1].0;
        if j > 0 { assert tail[j - 1].0 <= tail[k - 1].0; }
      }
    }
  }

  lemma InsertSorts(buf: seq<(nat, Bytes)>, part: (nat, Bytes))
    requires Increasing(buf)
    ensures Increasing(InsertPart(buf, part))
    ensures multiset(InsertPart(buf, part)) == multiset(buf) + multiset{part}
  {
    InsertContents(buf, part);
    InsertIncreasing(buf, part, 0);
    var out := [(0, [])] + InsertPart(buf, part);
    assert forall k :: 0 <= k < |InsertPart(buf, part)| ==> out[k + 1] == InsertPart(buf, part)[k];
  }

  lemma {:induction false} SortSorts(buf: seq<(nat, Bytes)>)
    ensures Increasing(Sort(buf)) && multiset(Sort(buf)) == multiset(buf)
    decreases |buf|
  {
    if buf != [] {
      var last := |buf| - 1;
      SortSorts(buf[..last]);
      InsertSorts(Sort(buf[..last]), buf[last]);
      assert buf == buf[..last] + [buf[last]];
    }
  }

  /** Parts with different indices below n, n or more of them. */
  ghost predicate Complete(buf: seq<(nat, Bytes)>, n: nat) {
    && |buf| >= n
    && (forall k :: 0 <= k < |buf| ==> buf[k].0 < n)
    && (forall j, k :: 0 <= j < k < |buf| ==> buf[j].0 != buf[k].0)
  }

  lemma {:induction false} IncreasingIsIdentity(buf: seq<(nat, Bytes)>, n: nat, k: nat)
    requires Increasing(buf) && Complete(buf, n) && k < |buf|
    ensures k <= buf[k].0
    decreases k
  {
    if k > 0 { IncreasingIsIdentity(buf, n, k - 1); }
  }

  lemma {:induction false} IncreasingFromTop(buf: seq<(nat, Bytes)>, n: nat, k: nat)
    requires Increasing(buf) && Complete(buf, n) && k < |buf|
    ensures buf[k].0 + |buf| <= n + k
    decreases |buf| - k
  {
    if k + 1 < |buf| { IncreasingFromTop(buf, n, k + 1); }
  }

  lemma DistinctAfterSort(buf: seq<(nat, Bytes)>, n: nat)
    requires Complete(buf, n)
    ensures Complete(Sort(buf), n)
  {
    SortSorts(buf);
    var out := Sort(buf);
    assert |out| == |multiset(out)| == |multiset(buf)| == |buf|;
    forall k | 0 <= k < |out| ensures out[k].0 < n {
      assert out[k] in multiset(out);
      assert out[k] in buf;
    }
    forall j, k | 0 <= j < k < |out| ensures out[j].0 != out[k].0 { SortedDistinct(buf, n, j, k); }
  }

  lemma SortedDistinct(buf: seq<(nat, Bytes)>, n: nat, j: nat, k: nat)
    requires Complete(buf, n) && 0 <= j < k < |Sort(buf)|
    ensures Sort(buf)[j].0 != Sort(buf)[k].0
  {
    SortSorts(buf);
    var out := Sort(buf);
    assert out[j] in multiset(out) && out[k] in multiset(out);
    var x :| 0 <= x < |buf| && buf[x] == out[j];
    var y :| 0 <= y < |buf| && buf[y] == out[k];
    CountOnce(buf, n, x);
    if x == y { CountTwice(out, j, k); }
  }

  lemma CountTwice<T>(out: seq<T>, j: nat, k: nat)
    requires j < k < |out| && out[j] == out[k]
    ensures multiset(out)[out[k]] >= 2
  {
    assert out == out[..k] + [out[k]] + out[k + 1..];
    assert out[..k][j] == out[k];
  }

  lemma CountOnce(buf: seq<(nat, Bytes)>, n: nat, x: nat)
    requires Complete(buf, n) && x < |buf|
    ensures multiset(buf)[buf[x]] == 1
  {
    assert buf == buf[..x] + [buf[x]] + buf[x + 1..];
    assert buf[x] !in buf[..x] && buf[x] !in buf[x + 1..];
  }

  /** Ordering a complete buffer puts the part of file i at place i. */
  lemma SortedPlaces(buf: seq<(nat, Bytes)>, n: nat)
    requires Complete(buf, n)
    ensures |buf| == n == |Sort(buf)|
    ensures forall i :: 0 <= i < n ==> Sort(buf)[i].0 == i && Sort(buf)[i] in buf
  {
    SortSorts(buf);
    DistinctAfterSort(buf, n);
    var out := Sort(buf);
    assert |out| == |multiset(out)| == |multiset(buf)| == |buf|;
    if |out| > 0 {
      IncreasingFromTop(out, n, 0);
    }
    forall i | 0 <= i < n ensures out[i].0 == i && out[i] in buf {
      IncreasingIsIdentity(out, n, i);
      IncreasingFromTop(out, n, i);
      assert out[i] in multiset(out);
    }
  }

  // ---- What every run keeps ----

  ghost predicate SentPart(s: State, i: nat) { exists k :: 0 <= k < |s.sent| && s.sent[k].Part? && s.sent[k].index == i }

  /** A task's stage agrees with what it has read, and it has sent at most that. */
  ghost predicate TaskValid(s: State, i: nat)
    requires i < |s.stages| == |s.parts|
  {
    && (s.stages[i].Loading? ==> s.parts[i].None?)
    && (s.stages[i].Writing? ==> s.parts[i] == Some(s.stages[i].part))
    && (s.stages[i].Written? ==> s.parts[i].Some? && s.stages[i].weight == |s.parts[i].value|)
    && (SentPart(s, i) ==> !s.stages[i].Loading? && !s.stages[i].Writing?)
  }

  /** A message in the channel is the part its task has built. */
  ghost predicate MsgValid(s: State, k: nat)
    requires k < |s.sent|
  {
    s.sent[k].Part? ==> s.sent[k].index < |s.parts| && s.parts[s.sent[k].index] == Some(s.sent[k].bytes)
  }

  /** Before the answer the buffer holds the messages taken so far, all of them parts. */
  ghost predicate BufValid(s: State)
    requires s.taken <= |s.sent|
  {
    s.answer.None? ==>
      && |s.buf| == s.taken
      && forall k :: 0 <= k < s.taken ==> s.sent[k] == Part(s.buf[k].0, s.buf[k].1)
  }

  ghost predicate Valid(tasks: seq<File>, s: State) {
    && Sized(tasks, s) && s.taken <= |s.sent|
    && (forall i :: 0 <= i < |tasks| ==> TaskValid(s, i))
    && (forall k :: 0 <= k < |s.sent| ==> MsgValid(s, k))
    && (forall j, k :: 0 <= j < k < |s.sent| && s.sent[j].Part? && s.sent[k].Part? ==> s.sent[j].index != s.sent[k].index)
    && BufValid(s)
    && (s.answer.Some? && s.answer.value.Body? ==> IsFullBody(tasks, s.parts, s.answer.value.bytes))
  }

  /** Every task has a part, and the body is all of them in file order, of the declared total size. */
  ghost predicate IsFullBody(tasks: seq<File>, parts: seq<Option<Bytes>>, bytes: Bytes) {
    && |parts| == |tasks| && (forall i :: 0 <= i < |parts| ==> parts[i].Some?)
    && bytes == JoinParts(parts) && |bytes| == Total(tasks)
  }

  ghost function JoinParts(parts: seq<Option<Bytes>>): Bytes
    requires forall i :: 0 <= i < |parts| ==> parts[i].Some?
  {
    if parts == [] then [] else JoinParts(parts[..|parts| - 1]) + parts[|parts| - 1].value
  }

  lemma {:induction false} JoinSizes(buf: seq<(nat, Bytes)>)
    ensures |Join(buf)| == SizeOf(buf)
    decreases |buf|
  {
    if buf != [] { JoinSizes(buf[..|buf| - 1]); }
  }

  /** Joining parts that stand at their own places is joining the list of parts. */
  lemma {:induction false} JoinInOrder(out: seq<(nat, Bytes)>, parts: seq<Option<Bytes>>)
    requires |out| == |parts| && forall i :: 0 <= i < |out| ==> parts[i] == Some(out[i].1)
    ensures Join(out) == JoinParts(parts)
    decreases |out|
  {
    if out != [] { JoinInOrder(out[..|out| - 1], parts[..|parts| - 1]); }
  }

  lemma {:induction false} SizeOfAppend(a: seq<(nat, Bytes)>, b: seq<(nat, Bytes)>)
    ensures SizeOf(a + b) == SizeOf(a) + SizeOf(b)
    decreases |b|
  {
    if b == [] {
      assert a + b == a;
    } else {
      SizeOfAppend(a, b[..|b| - 1]);
      assert (a + b)[..|a + b| - 1] == a + b[..|b| - 1];
    }
  }

  lemma {:induction false} InsertSize(buf: seq<(nat, Bytes)>, part: (nat, Bytes))
    ensures SizeOf(InsertPart(buf, part)) == SizeOf(buf) + |part.1|
    decreases |buf|
  {
    if buf != [] {
      assert buf == [buf[0]] + buf[1..];
      SizeOfAppend([buf[0]], buf[1..]);
      SizeOfAppend([part], buf);
      InsertSize(buf[1..], part);
      SizeOfAppend([buf[0]], InsertPart(buf[1..], part));
    }
  }

  lemma {:induction false} SortSize(buf: seq<(nat, Bytes)>)
    ensures SizeOf(Sort(buf)) == SizeOf(buf)
    decreases |buf|
  {
    if buf != [] {
      SortSize(buf[..|buf| - 1]);
      InsertSize(Sort(buf[..|buf| - 1]), buf[|buf| - 1]);
    }
  }

  /** What the response stage concludes from a buffer of true parts is an error or the full body. */
  lemma ConcludeIsSafe(tasks: seq<File>, parts: seq<Option<Bytes>>, buf: seq<(nat, Bytes)>)
    requires |parts| == |tasks|
    requires forall k :: 0 <= k < |buf| ==> buf[k].0 < |tasks| && parts[buf[k].0] == Some(buf[k].1)
    requires forall j, k :: 0 <= j < k < |buf| ==> buf[j].0 != buf[k].0
    ensures var a := Conclude(tasks, buf); a.Body? ==> IsFullBody(tasks, parts, a.bytes)
  {
    if Conclude(tasks, buf).Body? {
      SortedPlaces(buf, |tasks|);
      var out := Sort(buf);
      forall i | 0 <= i < |out| ensures parts[i] == Some(out[i].1) {
        var k :| 0 <= k < |buf| && buf[k] == out[i];
      }
      JoinInOrder(out, parts);
      JoinSizes(out);
      SortSize(buf);
    }
  }

  /** The body is answered exactly if as many parts as tasks have come and their bytes add up to the total. */
  lemma ConcludeIff(tasks: seq<File>, buf: seq<(nat, Bytes)>)
    ensures Conclude(tasks, buf).Body? <==> |buf| >= |tasks| && |Join(buf)| == Total(tasks)
  {
    JoinSizes(buf);
  }

  lemma SentGrows(s: State, s': State, msg: Msg, i: nat)
    requires s'.sent == s.sent + [msg]
    ensures SentPart(s', i) <==> SentPart(s, i) || (msg.Part? && msg.index == i)
  {
    if SentPart(s, i) {
      var k :| 0 <= k < |s.sent| && s.sent[k].Part? && s.sent[k].index == i;
      assert s'.sent[k] == s.sent[k];
    }
    if msg.Part? && msg.index == i { assert s'.sent[|s.sent|] == msg; }
  }

  lemma WriteKeepsValid(tasks: seq<File>, capacity: nat, s: State, i: nat)
    requires Valid(tasks, s) && Enabled(tasks, capacity, s, Write(i))
    ensures Valid(tasks, Apply(tasks, capacity, s, Write(i)))
  {
    var s' := Apply(tasks, capacity, s, Write(i));
    assert TaskValid(s, i);
    forall j | 0 <= j < |tasks| ensures TaskValid(s', j) {
      assert TaskValid(s, j);
      if !s.gone { SentGrows(s, s', Part(i, s.stages[i].part), j); }
    }
    forall k | 0 <= k < |s'.sent| ensures MsgValid(s', k) { if k < |s.sent| { assert MsgValid(s, k); } }
    if !s.gone {
      forall j | 0 <= j < |s.sent| && s.sent[j].Part? ensures s.sent[j].index != i {
        if s.sent[j].index == i { assert SentPart(s, i); }
      }
    }
  }

  lemma FinishKeepsValid(tasks: seq<File>, capacity: nat, s: State, i: nat)
    requires Valid(tasks, s) && Enabled(tasks, capacity, s, SendFinish(i))
    ensures Valid(tasks, Apply(tasks, capacity, s, SendFinish(i)))
  {
    var s' := Apply(tasks, capacity, s, SendFinish(i));
    forall j | 0 <= j < |tasks| ensures TaskValid(s', j) {
      assert TaskValid(s, j);
      if !s.gone { SentGrows(s, s', Finish, j); }
    }
    forall k | 0 <= k < |s'.sent| ensures MsgValid(s', k) { if k < |s.sent| { assert MsgValid(s, k); } }
  }

  lemma ReceiveKeepsValid(tasks: seq<File>, capacity: nat, s: State)
    requires Valid(tasks, s) && Enabled(tasks, capacity, s, Receive)
    ensures Valid(tasks, Apply(tasks, capacity, s, Receive))
  {
    var s' := Apply(tasks, capacity, s, Receive);
    assert MsgValid(s, s.taken);
    forall j | 0 <= j < |tasks| ensures TaskValid(s', j) { assert TaskValid(s, j); assert SentPart(s', j) == SentPart(s, j); }
    forall k | 0 <= k < |s'.sent| ensures MsgValid(s', k) { assert MsgValid(s, k); }
    if s.sent[s.taken].Finish? {
      forall k | 0 <= k < |s.buf| ensures s.buf[k].0 < |tasks| && s.parts[s.buf[k].0] == Some(s.buf[k].1) {
        assert MsgValid(s, k);
      }
      ConcludeIsSafe(tasks, s.parts, s.buf);
    }
  }

  lemma LoadKeepsValid(tasks: seq<File>, capacity: nat, s: State, step: Step)
    requires Valid(tasks, s) && Enabled(tasks, capacity, s, step) && (step.Load? || step.Subtract? || step.Hangup?)
    ensures Valid(tasks, Apply(tasks, capacity, s, step))
  {
    var s' := Apply(tasks, capacity, s, step);
    if step.Load? { assert TaskValid(s, step.i); }
    forall j | 0 <= j < |tasks| ensures TaskValid(s', j) { assert TaskValid(s, j); assert SentPart(s', j) == SentPart(s, j); }
    forall k | 0 <= k < |s'.sent| ensures MsgValid(s', k) {
      assert MsgValid(s, k);
      if s.sent[k].Part? { assert SentPart(s, s.sent[k].index) && TaskValid(s, s.sent[k].index); }
    }
  }

  lemma StepKeepsValid(tasks: seq<File>, capacity: nat, s: State, step: Step)
    requires Valid(tasks, s) && Enabled(tasks, capacity, s, step)
    ensures Valid(tasks, Apply(tasks, capacity, s, step))
  {
    match step {
      case Write(i) => WriteKeepsValid(tasks, capacity, s, i);
      case SendFinish(i) => FinishKeepsValid(tasks, capacity, s, i);
      case Receive => ReceiveKeepsValid(tasks, capacity, s);
      case _ => LoadKeepsValid(tasks, capacity, s, step);
    }
  }

  lemma {:induction false} RunsAreValid(tasks: seq<File>, capacity: nat, steps: seq<Step>)
    requires IsRun(tasks, capacity, steps)
    ensures Valid(tasks, After(tasks, capacity, steps))
    decreases |steps|
  {
    if steps != [] {
      var before := steps[..|steps| - 1];
      RunsAreValid(tasks, capacity, before);
      StepKeepsValid(tasks, capacity, After(tasks, capacity, before), steps[|steps| - 1]);
    }
  }

  /**
    Whatever the interleaving, the failures and the sizes read: the response stage
    answers an error or exactly all parts, joined in file order.
   */
  lemma AnswerIsErrorOrFullBody(tasks: seq<File>, capacity: nat, steps: seq<Step>)
    requires IsRun(tasks, capacity, steps)
    ensures var s := After(tasks, capacity, steps);
            s.answer.Some? ==> s.answer.value.Failed? || IsFullBody(tasks, s.parts, s.answer.value.bytes)
  {
    RunsAreValid(tasks, capacity, steps);
  }
}
