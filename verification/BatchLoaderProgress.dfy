/**
  The loader when every file reads at its declared size and the receiver stays: the
  countdown elects exactly one task to send the finish, after all parts, and every run
  that cannot go on has answered with the full body.
 */
module BatchLoaderProgress {
  import opened Prelude
  import opened BatchLoader

  // ---- Sums over the tasks ----

  /** The task has not yet subtracted its part from the countdown. */
  predicate Owes(stage: Stage) { stage.Loading? || stage.Writing? || stage.Written? }

  /** The task's part has not yet been written. */
  predicate Unsent(stage: Stage) { stage.Loading? || stage.Writing? }

  /** What is still to be subtracted. */
  ghost function Left(tasks: seq<File>, stages: seq<Stage>): nat
    requires |tasks| == |stages|
  {
    if tasks == [] then 0
    else
      var last := |tasks| - 1;
      Left(tasks[..last], stages[..last]) + if Owes(stages[last]) then Weight(tasks[last]) else 0
  }

  /** How many parts have been written. */
  ghost function Sent(stages: seq<Stage>): (n: nat)
    ensures n <= |stages|
  {
    if stages == [] then 0
    else Sent(stages[..|stages| - 1]) + if Unsent(stages[|stages| - 1]) then 0 else 1
  }

  lemma {:induction false} LeftUpdate(tasks: seq<File>, stages: seq<Stage>, i: nat, stage: Stage)
    requires |tasks| == |stages| && i < |stages|
    ensures Left(tasks, stages[i := stage]) + (if Owes(stages[i]) then Weight(tasks[i]) else 0)
         == Left(tasks, stages) + (if Owes(stage) then Weight(tasks[i]) else 0)
    decreases |tasks|
  {
    var last := |tasks| - 1;
    if i < last {
      LeftUpdate(tasks[..last], stages[..last], i, stage);
      assert stages[i := stage][..last] == stages[..last][i := stage];
    } else {
      assert stages[i := stage][..last] == stages[..last];
    }
  }

  lemma {:induction false} SentUpdate(stages: seq<Stage>, i: nat, stage: Stage)
    requires i < |stages|
    ensures Sent(stages[i := stage]) + (if Unsent(stages[i]) then 0 else 1)
         == Sent(stages) + (if Unsent(stage) then 0 else 1)
    decreases |stages|
  {
    var last := |stages| - 1;
    if i < last {
      SentUpdate(stages[..last], i, stage);
      assert stages[i := stage][..last] == stages[..last][i := stage];
    } else {
      assert stages[i := stage][..last] == stages[..last];
    }
  }

  lemma {:induction false} LeftZero(tasks: seq<File>, stages: seq<Stage>)
    requires |tasks| == |stages|
    ensures Left(tasks, stages) == 0 <==> forall i :: 0 <= i < |stages| ==> !Owes(stages[i])
    decreases |tasks|
  {
    if tasks != [] {
      var last := |tasks| - 1;
      LeftZero(tasks[..last], stages[..last]);
      assert forall i :: 0 <= i < last ==> stages[..last][i] == stages[i];
    }
  }

  lemma {:induction false} AllSent(stages: seq<Stage>)
    ensures Sent(stages) == |stages| <==> forall i :: 0 <= i < |stages| ==> !Unsent(stages[i])
    decreases |stages|
  {
    if stages != [] {
      var last := |stages| - 1;
      AllSent(stages[..last]);
      assert forall i :: 0 <= i < last ==> stages[..last][i] == stages[i];
    }
  }

  lemma {:induction false} LeftAtMostTotal(tasks: seq<File>, stages: seq<Stage>)
    requires |tasks| == |stages|
    ensures Left(tasks, stages) <= Total(tasks)
    ensures (forall i :: 0 <= i < |stages| ==> Owes(stages[i])) ==> Left(tasks, stages) == Total(tasks)
    decreases |tasks|
  {
    if tasks != [] {
      var last := |tasks| - 1;
      LeftAtMostTotal(tasks[..last], stages[..last]);
      assert forall i :: 0 <= i < last ==> stages[..last][i] == stages[i];
    }
  }

  // ---- Healthy runs ----

  /** Every file reads at its declared size, and the receiver does not hang up. */
  predicate HealthyStep(tasks: seq<File>, step: Step) {
    && !step.Hangup?
    && (step.Load? && step.i < |tasks| ==> step.content.Some? && |step.content.value| == tasks[step.i].size)
  }

  ghost predicate HealthyRun(tasks: seq<File>, capacity: nat, steps: seq<Step>) {
    IsRun(tasks, capacity, steps) && forall step :: step in steps ==> HealthyStep(tasks, step)
  }

  ghost predicate NoFinish(sent: seq<Msg>) { forall k :: 0 <= k < |sent| ==> sent[k].Part? }

  ghost predicate SomeOwes(stages: seq<Stage>) { exists i :: 0 <= i < |stages| && Owes(stages[i]) }

  /** The task i is the only one that is not through. */
  ghost predicate OnlyFinisher(stages: seq<Stage>, i: nat) {
    && i < |stages| && stages[i].Finishing?
    && forall j :: 0 <= j < |stages| && j != i ==> stages[j].Ended?
  }

  ghost predicate AllEnded(stages: seq<Stage>) { forall i :: 0 <= i < |stages| ==> stages[i].Ended? }

  /** Some task still owes; nobody has been elected, and no finish has been sent. */
  ghost predicate Open(s: State) {
    && SomeOwes(s.stages) && NoFinish(s.sent) && |s.sent| == Sent(s.stages)
    && forall i :: 0 <= i < |s.stages| ==> !s.stages[i].Finishing?
  }

  /** Exactly one task is elected; all parts are in the channel, and no finish. */
  ghost predicate Closing(s: State) {
    && (exists i :: OnlyFinisher(s.stages, i))
    && NoFinish(s.sent) && |s.sent| == |s.stages|
  }

  /** The one finish is in the channel, after all parts. */
  ghost predicate Closed(s: State) {
    && AllEnded(s.stages)
    && |s.sent| == |s.stages| + 1 && s.sent[|s.stages|].Finish? && NoFinish(s.sent[..|s.stages|])
  }

  ghost predicate Healthy(tasks: seq<File>, s: State) {
    && Valid(tasks, s) && !s.gone && tasks != []
    && s.unload == Left(tasks, s.stages)
    && (forall i :: 0 <= i < |tasks| && s.parts[i].Some? ==> |s.parts[i].value| == Weight(tasks[i]))
    && (Open(s) || Closing(s) || Closed(s))
    && (s.answer.Some? ==> s.answer.value.Body?)
  }

  lemma HealthyLoad(tasks: seq<File>, capacity: nat, s: State, step: Step)
    requires Healthy(tasks, s) && Enabled(tasks, capacity, s, step) && HealthyStep(tasks, step) && step.Load?
    ensures Healthy(tasks, Apply(tasks, capacity, s, step))
  {
    var s' := Apply(tasks, capacity, s, step);
    StepKeepsValid(tasks, capacity, s, step);
    var stage := s'.stages[step.i];
    LeftUpdate(tasks, s.stages, step.i, stage);
    SentUpdate(s.stages, step.i, stage);
    assert Open(s);
    assert Owes(s'.stages[step.i]);
  }

  lemma HealthyWrite(tasks: seq<File>, capacity: nat, s: State, i: nat)
    requires Healthy(tasks, s) && Enabled(tasks, capacity, s, Write(i))
    ensures Healthy(tasks, Apply(tasks, capacity, s, Write(i)))
  {
    var s' := Apply(tasks, capacity, s, Write(i));
    StepKeepsValid(tasks, capacity, s, Write(i));
    LeftUpdate(tasks, s.stages, i, s'.stages[i]);
    SentUpdate(s.stages, i, s'.stages[i]);
    assert Open(s);
    assert Owes(s'.stages[i]);
  }

  /** The countdown reaches zero exactly when the last task that owes subtracts. */
  lemma LastOne(tasks: seq<File>, stages: seq<Stage>, i: nat, stage: Stage)
    requires |tasks| == |stages| && i < |stages| && Owes(stages[i]) && !Owes(stage)
    ensures Weight(tasks[i]) <= Left(tasks, stages)
    ensures Left(tasks, stages[i := stage]) == Left(tasks, stages) - Weight(tasks[i])
    ensures Left(tasks, stages) == Weight(tasks[i]) <==> !SomeOwes(stages[i := stage])
  {
    LeftUpdate(tasks, stages, i, stage);
    LeftZero(tasks, stages[i := stage]);
  }

  lemma HealthySubtract(tasks: seq<File>, capacity: nat, s: State, i: nat)
    requires Healthy(tasks, s) && Enabled(tasks, capacity, s, Subtract(i)) && Total(tasks) < U64
    ensures Healthy(tasks, Apply(tasks, capacity, s, Subtract(i)))
  {
    var s' := Apply(tasks, capacity, s, Subtract(i));
    StepKeepsValid(tasks, capacity, s, Subtract(i));
    assert TaskValid(s, i) && s.stages[i].weight == Weight(tasks[i]);
    assert Open(s);
    LeftAtMostTotal(tasks, s.stages);
    LastOne(tasks, s.stages, i, s'.stages[i]);
    MinusSmall(s.unload, Weight(tasks[i]));
    SentUpdate(s.stages, i, s'.stages[i]);
    if s.unload == Weight(tasks[i]) { Elected(s.stages, s'.stages, i); }
  }

  lemma Elected(stages: seq<Stage>, stages': seq<Stage>, i: nat)
    requires i < |stages| && stages' == stages[i := Finishing] && !SomeOwes(stages')
    requires forall j :: 0 <= j < |stages| ==> !stages[j].Finishing?
    ensures OnlyFinisher(stages', i) && Sent(stages') == |stages'|
  {
    AllSent(stages');
    assert forall j :: 0 <= j < |stages'| ==> !Owes(stages'[j]);
  }

  lemma HealthyFinish(tasks: seq<File>, capacity: nat, s: State, i: nat)
    requires Healthy(tasks, s) && Enabled(tasks, capacity, s, SendFinish(i))
    ensures Healthy(tasks, Apply(tasks, capacity, s, SendFinish(i)))
  {
    var s' := Apply(tasks, capacity, s, SendFinish(i));
    StepKeepsValid(tasks, capacity, s, SendFinish(i));
    LeftUpdate(tasks, s.stages, i, s'.stages[i]);
    assert Closing(s);
    assert s'.sent[..|s.stages|] == s.sent;
  }

  lemma {:induction false} SizeIsTotal(tasks: seq<File>, out: seq<(nat, Bytes)>)
    requires |out| == |tasks| && forall i :: 0 <= i < |out| ==> |out[i].1| == Weight(tasks[i])
    ensures SizeOf(out) == Total(tasks)
    decreases |out|
  {
    if out != [] { SizeIsTotal(tasks[..|tasks| - 1], out[..|out| - 1]); }
  }

  /** All parts at their declared weight pass the checks of the response stage. */
  lemma ConcludeHealthy(tasks: seq<File>, parts: seq<Option<Bytes>>, buf: seq<(nat, Bytes)>)
    requires |parts| == |tasks| && Complete(buf, |tasks|)
    requires forall k :: 0 <= k < |buf| ==> parts[buf[k].0] == Some(buf[k].1) && |buf[k].1| == Weight(tasks[buf[k].0])
    ensures Conclude(tasks, buf).Body?
  {
    SortedPlaces(buf, |tasks|);
    SortSize(buf);
    SizeIsTotal(tasks, Sort(buf));
  }

  lemma HealthyReceive(tasks: seq<File>, capacity: nat, s: State)
    requires Healthy(tasks, s) && Enabled(tasks, capacity, s, Receive)
    ensures Healthy(tasks, Apply(tasks, capacity, s, Receive))
  {
    StepKeepsValid(tasks, capacity, s, Receive);
    if s.sent[s.taken].Finish? {
      assert Closed(s);
      assert s.taken == |s.stages| by {
        assert forall k :: 0 <= k < |s.stages| ==> s.sent[..|s.stages|][k] == s.sent[k];
      }
      forall k | 0 <= k < |s.buf|
        ensures s.buf[k].0 < |tasks| && s.parts[s.buf[k].0] == Some(s.buf[k].1) && |s.buf[k].1| == Weight(tasks[s.buf[k].0])
      {
        assert MsgValid(s, k);
      }
      ConcludeHealthy(tasks, s.parts, s.buf);
    }
  }

  lemma HealthyStart(tasks: seq<File>)
    requires tasks != [] && Total(tasks) < U64
    ensures Healthy(tasks, Init(tasks))
  {
    var s := Init(tasks);
    assert Owes(s.stages[0]);
    LeftAtMostTotal(tasks, s.stages);
    NothingSent(s.stages);
  }

  lemma {:induction false} NothingSent(stages: seq<Stage>)
    requires forall i :: 0 <= i < |stages| ==> Unsent(stages[i])
    ensures Sent(stages) == 0
    decreases |stages|
  {
    if stages != [] { NothingSent(stages[..|stages| - 1]); }
  }

  lemma {:induction false} HealthyRuns(tasks: seq<File>, capacity: nat, steps: seq<Step>)
    requires HealthyRun(tasks, capacity, steps) && tasks != [] && Total(tasks) < U64
    ensures Healthy(tasks, After(tasks, capacity, steps))
    decreases |steps|
  {
    if steps == [] {
      HealthyStart(tasks);
    } else {
      var before, step := steps[..|steps| - 1], steps[|steps| - 1];
      assert forall x :: x in before ==> x in steps;
      HealthyRuns(tasks, capacity, before);
      var s := After(tasks, capacity, before);
      assert HealthyStep(tasks, step);
      match step {
        case Load(_, _) => HealthyLoad(tasks, capacity, s, step);
        case Write(i) => HealthyWrite(tasks, capacity, s, i);
        case Subtract(i) => HealthySubtract(tasks, capacity, s, i);
        case SendFinish(i) => HealthyFinish(tasks, capacity, s, i);
        case Receive => HealthyReceive(tasks, capacity, s);
      }
    }
  }

  /** At most one finish, only after all N parts, and never more than N + 1 messages in all. */
  lemma OneFinishAfterAllParts(tasks: seq<File>, capacity: nat, steps: seq<Step>)
    requires HealthyRun(tasks, capacity, steps) && tasks != [] && Total(tasks) < U64
    ensures var s := After(tasks, capacity, steps);
            && |s.sent| <= |tasks| + 1
            && (forall k :: 0 <= k < |s.sent| ==> (s.sent[k].Finish? <==> k == |tasks|))
            && (AllEnded(s.stages) ==> |s.sent| == |tasks| + 1)
  {
    HealthyRuns(tasks, capacity, steps);
    var s := After(tasks, capacity, steps);
    if Open(s) {
      SomeUnsentOrOwing(s.stages);
    } else if Closed(s) {
      forall k | 0 <= k < |tasks| ensures s.sent[k].Part? { assert s.sent[..|tasks|][k] == s.sent[k]; }
    }
  }

  lemma SomeUnsentOrOwing(stages: seq<Stage>)
    requires SomeOwes(stages)
    ensures Sent(stages) <= |stages| && !AllEnded(stages)
  {
  }

  // ---- Progress ----

  function Rank(stage: Stage): nat {
    match stage
    case Loading => 4
    case Writing(_) => 3
    case Written(_) => 2
    case Finishing => 1
    case Ended => 0
  }

  ghost function Ranks(stages: seq<Stage>): nat {
    if stages == [] then 0 else Ranks(stages[..|stages| - 1]) + Rank(stages[|stages| - 1])
  }

  lemma {:induction false} RanksUpdate(stages: seq<Stage>, i: nat, stage: Stage)
    requires i < |stages|
    ensures Ranks(stages[i := stage]) + Rank(stages[i]) == Ranks(stages) + Rank(stage)
    decreases |stages|
  {
    var last := |stages| - 1;
    if i < last {
      RanksUpdate(stages[..last], i, stage);
      assert stages[i := stage][..last] == stages[..last][i := stage];
    } else {
      assert stages[i := stage][..last] == stages[..last];
    }
  }

  lemma {:induction false} RanksAtStart(stages: seq<Stage>)
    requires forall i :: 0 <= i < |stages| ==> stages[i].Loading?
    ensures Ranks(stages) == 4 * |stages|
    decreases |stages|
  {
    if stages != [] { RanksAtStart(stages[..|stages| - 1]); }
  }

  /** Steps still to be taken, at most. */
  ghost function Work(s: State): int { 2 * Ranks(s.stages) + |s.sent| - s.taken }

  lemma WorkDrops(tasks: seq<File>, capacity: nat, s: State, step: Step)
    requires Sized(tasks, s) && Enabled(tasks, capacity, s, step) && !step.Hangup?
    ensures Work(Apply(tasks, capacity, s, step)) < Work(s)
  {
    if !step.Receive? { RanksUpdate(s.stages, step.i, Apply(tasks, capacity, s, step).stages[step.i]); }
  }

  /** No run goes on for more than eight steps a task while the receiver stays. */
  lemma {:induction false} RunsEnd(tasks: seq<File>, capacity: nat, steps: seq<Step>)
    requires IsRun(tasks, capacity, steps) && forall step :: step in steps ==> !step.Hangup?
    ensures |steps| + Work(After(tasks, capacity, steps)) <= 8 * |tasks|
    ensures 0 <= Work(After(tasks, capacity, steps))
    decreases |steps|
  {
    RunsAreValid(tasks, capacity, steps);
    if steps == [] {
      RanksAtStart(Init(tasks).stages);
    } else {
      var before, step := steps[..|steps| - 1], steps[|steps| - 1];
      assert forall x :: x in before ==> x in steps;
      RunsEnd(tasks, capacity, before);
      WorkDrops(tasks, capacity, After(tasks, capacity, before), step);
    }
  }

  ghost predicate Stuck(tasks: seq<File>, capacity: nat, s: State) {
    forall step :: Enabled(tasks, capacity, s, step) ==> step.Hangup?
  }

  /** With room for N + 1 messages nobody waits forever: a run that cannot go on has its answer. */
  lemma StuckMeansAnswered(tasks: seq<File>, capacity: nat, steps: seq<Step>)
    requires HealthyRun(tasks, capacity, steps) && tasks != [] && Total(tasks) < U64 && capacity >= |tasks| + 1
    requires Stuck(tasks, capacity, After(tasks, capacity, steps))
    ensures var s := After(tasks, capacity, steps);
            && s.answer.Some? && s.answer.value.Body?
            && IsFullBody(tasks, s.parts, s.answer.value.bytes)
  {
    HealthyRuns(tasks, capacity, steps);
    OneFinishAfterAllParts(tasks, capacity, steps);
    var s := After(tasks, capacity, steps);
    if i :| 0 <= i < |tasks| && !s.stages[i].Ended? {
      CanMove(tasks, capacity, s, i);
      assert false;
    }
    assert Closed(s);
    assert !Enabled(tasks, capacity, s, Receive);
  }

  /** The step a task is about to take. */
  function NextStep(s: State, i: nat): Step
    requires i < |s.stages|
  {
    match s.stages[i]
    case Loading => Load(i, None)
    case Writing(_) => Write(i)
    case Written(_) => Subtract(i)
    case Finishing => SendFinish(i)
    case Ended => Receive
  }

  lemma CanMove(tasks: seq<File>, capacity: nat, s: State, i: nat)
    requires Healthy(tasks, s) && i < |tasks| && capacity >= |tasks| + 1 && !s.stages[i].Ended?
    ensures Enabled(tasks, capacity, s, NextStep(s, i)) && !NextStep(s, i).Hangup?
  {
  }
}
