/**
  The response stage of the batch loader: the loop that buffers the parts taken from the
  channel, checks them at the first finish and pushes them in file order.
 */
module BatchResponse {
  import opened Prelude
  import opened BatchLoader

  /** The parts among the messages before the first finish. */
  function BufOf(msgs: seq<Msg>): seq<(nat, Bytes)> {
    if msgs == [] then []
    else
      var front, last := msgs[..|msgs| - 1], msgs[|msgs| - 1];
      if last.Part? && Finish !in front then BufOf(front) + [(last.index, last.bytes)] else BufOf(front)
  }

  datatype Reply = Waiting | NotFound | Answered(answer: Answer)

  /** Nothing is answered before a finish arrives or the channel closes, unless there is nothing to load. */
  function Collected(tasks: seq<File>, msgs: seq<Msg>, closed: bool): Reply {
    if tasks == [] then NotFound
    else if Finish in msgs then Answered(Conclude(tasks, BufOf(msgs)))
    else if closed then Answered(Failed)
    else Waiting
  }

  /** The kinds of reply: not found without files, waiting for as long as neither a finish nor the end of the channel has come. */
  lemma ReplyKinds(tasks: seq<File>, msgs: seq<Msg>, closed: bool)
    ensures var r := Collected(tasks, msgs, closed);
            && (r.NotFound? <==> tasks == [])
            && (r.Waiting? <==> tasks != [] && !closed && forall k :: 0 <= k < |msgs| ==> msgs[k].Part?)
            && (r.Answered? && r.answer.Body? ==> exists k :: 0 <= k < |msgs| && msgs[k].Finish?)
  {
    forall k | 0 <= k < |msgs| ensures msgs[k].Finish? ==> Finish in msgs { }
  }

  lemma BufNext(msgs: seq<Msg>, i: nat)
    requires i < |msgs| && Finish !in msgs[..i]
    ensures BufOf(msgs[..i + 1])
         == if msgs[i].Part? then BufOf(msgs[..i]) + [(msgs[i].index, msgs[i].bytes)] else BufOf(msgs[..i])
  {
    assert msgs[..i + 1][..i] == msgs[..i];
  }

  /** Messages after the first finish do not matter. */
  lemma {:induction false} BufSettled(msgs: seq<Msg>, i: nat)
    requires i <= |msgs| && Finish in msgs[..i]
    ensures BufOf(msgs) == BufOf(msgs[..i])
    decreases |msgs|
  {
    if i == |msgs| {
      assert msgs[..i] == msgs;
    } else {
      var front := msgs[..|msgs| - 1];
      assert front[..i] == msgs[..i];
      BufSettled(front, i);
    }
  }

  lemma FirstFinish(msgs: seq<Msg>, i: nat)
    requires i < |msgs| && Finish !in msgs[..i] && msgs[i].Finish?
    ensures Finish in msgs && BufOf(msgs) == BufOf(msgs[..i])
  {
    assert msgs[..i + 1][i] == Finish;
    BufNext(msgs, i);
    BufSettled(msgs, i + 1);
  }

  method Respond(tasks: seq<File>, total: nat, msgs: seq<Msg>, closed: bool) returns (reply: Reply)
    requires total == Total(tasks)
    ensures reply == Collected(tasks, msgs, closed)
  {
    if |tasks| == 0 {
      return NotFound;
    }
    var buf, loadedSize, loadedLen := [], 0, 0;
    var i := 0;
    while i < |msgs|
      invariant 0 <= i <= |msgs| && Finish !in msgs[..i]
      invariant buf == BufOf(msgs[..i]) && loadedSize == SizeOf(buf) && loadedLen == |buf|
    {
      match msgs[i] {
        case Part(index, bytes) =>
          BufNext(msgs, i);
          SizeNext(buf, (index, bytes));
          loadedSize, loadedLen := loadedSize + |bytes|, loadedLen + 1;
          buf := buf + [(index, bytes)];
        case Finish =>
          FirstFinish(msgs, i);
          var answer := Check(tasks, total, buf, loadedSize, loadedLen);
          return Answered(answer);
      }
      i := i + 1;
    }
    assert msgs[..i] == msgs;
    reply := if closed then Answered(Failed) else Waiting;
  }

  lemma SizeNext(buf: seq<(nat, Bytes)>, part: (nat, Bytes))
    ensures SizeOf(buf + [part]) == SizeOf(buf) + |part.1|
  {
    assert (buf + [part])[..|buf|] == buf;
  }

  /** What is done at the finish. */
  method Check(tasks: seq<File>, total: nat, buf: seq<(nat, Bytes)>, loadedSize: nat, loadedLen: nat)
    returns (answer: Answer)
    requires total == Total(tasks) && loadedSize == SizeOf(buf) && loadedLen == |buf|
    ensures answer == Conclude(tasks, buf)
  {
    if loadedLen < |tasks| {
      return Failed;
    }
    if loadedSize != total {
      return Failed;
    }
    var body := Push(Sort(buf));
    answer := Body(body);
  }

  /** The parts one after the other. */
  method Push(parts: seq<(nat, Bytes)>) returns (body: Bytes)
    ensures body == Join(parts)
  {
    body := [];
    var i := 0;
    while i < |parts|
      invariant 0 <= i <= |parts| && body == Join(parts[..i])
    {
      assert parts[..i + 1][..i] == parts[..i];
      body := body + parts[i].1;
      i := i + 1;
    }
    assert parts[..i] == parts;
  }

  /** The buffer and the answer are what the loop makes of the messages it has taken. */
  ghost predicate Mirrors(tasks: seq<File>, s: State) {
    && s.taken <= |s.sent| && s.buf == BufOf(s.sent[..s.taken])
    && Collected(tasks, s.sent[..s.taken], false) == if s.answer.Some? then Answered(s.answer.value) else Waiting
  }

  /** In every run the receiving steps do what the loop does. */
  lemma {:induction false} RunsMirror(tasks: seq<File>, capacity: nat, steps: seq<Step>)
    requires IsRun(tasks, capacity, steps) && tasks != []
    ensures Mirrors(tasks, After(tasks, capacity, steps))
    decreases |steps|
  {
    if steps != [] {
      var before, step := steps[..|steps| - 1], steps[|steps| - 1];
      RunsMirror(tasks, capacity, before);
      var s := After(tasks, capacity, before);
      if step.Receive? { MirrorsReceive(tasks, capacity, s); } else { MirrorsOther(tasks, capacity, s, step); }
    }
  }

  lemma MirrorsReceive(tasks: seq<File>, capacity: nat, s: State)
    requires Sized(tasks, s) && Enabled(tasks, capacity, s, Receive) && Mirrors(tasks, s)
    ensures Mirrors(tasks, Apply(tasks, capacity, s, Receive))
  {
    var seen, next := s.sent[..s.taken], s.sent[s.taken];
    assert s.sent[..s.taken + 1] == seen + [next];
    CollectedNext(tasks, seen, next);
  }

  lemma CollectedNext(tasks: seq<File>, seen: seq<Msg>, next: Msg)
    requires tasks != [] && Finish !in seen
    ensures BufOf(seen + [next]) == if next.Part? then BufOf(seen) + [(next.index, next.bytes)] else BufOf(seen)
    ensures Collected(tasks, seen + [next], false) == if next.Part? then Waiting else Answered(Conclude(tasks, BufOf(seen)))
  {
    var msgs := seen + [next];
    assert msgs[..|seen|] == seen;
    BufNext(msgs, |seen|);
    assert msgs[..|seen| + 1] == msgs && (Finish in msgs <==> next == Finish);
  }

  lemma MirrorsOther(tasks: seq<File>, capacity: nat, s: State, step: Step)
    requires Sized(tasks, s) && Enabled(tasks, capacity, s, step) && !step.Receive? && Mirrors(tasks, s)
    ensures Mirrors(tasks, Apply(tasks, capacity, s, step))
  {
    assert Apply(tasks, capacity, s, step).sent[..s.taken] == s.sent[..s.taken];
  }

  /** In every run: an answer is the body exactly if the parts before the first finish are as many as the tasks and add up to the total. */
  lemma BodyIff(tasks: seq<File>, capacity: nat, steps: seq<Step>)
    requires IsRun(tasks, capacity, steps) && tasks != []
    ensures var s := After(tasks, capacity, steps);
            && s.taken <= |s.sent|
            && (s.answer.Some? ==>
                  var buf := BufOf(s.sent[..s.taken]);
                  (s.answer.value.Body? <==> |buf| >= |tasks| && |Join(buf)| == Total(tasks)))
  {
    RunsMirror(tasks, capacity, steps);
    var s := After(tasks, capacity, steps);
    ConcludeIff(tasks, BufOf(s.sent[..s.taken]));
  }
}
