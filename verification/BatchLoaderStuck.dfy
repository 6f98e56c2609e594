/**
  The loader when files fail or change their size: a run that cannot go on has answered
  exactly if some task was to send the finish, and otherwise the response hangs.
 */
module BatchLoaderStuck {
  import opened Prelude
  import opened BatchLoader
  import opened BatchLoaderProgress
  import opened BatchResponse

  /** The step after which a task sends the finish: a load that fails, or a subtraction that meets its own weight. */
  predicate Elects(s: State, step: Step) {
    match step
    case Load(_, content) => content.None?
    case Subtract(i) => i < |s.stages| && s.stages[i].Written? && s.unload == s.stages[i].weight
    case _ => false
  }

  ghost predicate SomeElected(tasks: seq<File>, capacity: nat, steps: seq<Step>)
    requires IsRun(tasks, capacity, steps)
    decreases |steps|
  {
    && steps != []
    && var before := steps[..|steps| - 1];
       SomeElected(tasks, capacity, before) || Elects(After(tasks, capacity, before), steps[|steps| - 1])
  }

  /** A finish is in the channel or about to be sent. */
  ghost predicate FinishComes(s: State) {
    Finish in s.sent || exists i :: 0 <= i < |s.stages| && s.stages[i].Finishing?
  }

  lemma StepFinish(tasks: seq<File>, capacity: nat, s: State, step: Step)
    requires Sized(tasks, s) && Enabled(tasks, capacity, s, step) && !step.Hangup? && !s.gone
    ensures var s' := Apply(tasks, capacity, s, step);
            !s'.gone && (FinishComes(s') <==> FinishComes(s) || Elects(s, step))
  {
    var s' := Apply(tasks, capacity, s, step);
    if !step.Receive? {
      var i := step.i;
      assert forall j :: 0 <= j < |s.stages| && j != i ==> s'.stages[j] == s.stages[j];
      if step.SendFinish? { assert s'.sent[|s.sent|] == Finish; }
      if Elects(s, step) { assert s'.stages[i].Finishing?; }
    }
  }

  lemma {:induction false} FinishComesIff(tasks: seq<File>, capacity: nat, steps: seq<Step>)
    requires IsRun(tasks, capacity, steps) && forall step :: step in steps ==> !step.Hangup?
    ensures var s := After(tasks, capacity, steps);
            !s.gone && (FinishComes(s) <==> SomeElected(tasks, capacity, steps))
    decreases |steps|
  {
    if steps != [] {
      var before, step := steps[..|steps| - 1], steps[|steps| - 1];
      assert steps == before + [step];
      FinishComesIff(tasks, capacity, before);
      StepFinish(tasks, capacity, After(tasks, capacity, before), step);
    }
  }

  /**
    While the receiver stays, whatever the files read: a run that cannot go on has been
    answered if and only if some load failed or some subtraction met its own weight.
   */
  lemma StuckAnsweredIff(tasks: seq<File>, capacity: nat, steps: seq<Step>)
    requires IsRun(tasks, capacity, steps) && tasks != [] && capacity > 0
    requires forall step :: step in steps ==> !step.Hangup?
    requires Stuck(tasks, capacity, After(tasks, capacity, steps))
    ensures After(tasks, capacity, steps).answer.Some? <==> SomeElected(tasks, capacity, steps)
  {
    var s := After(tasks, capacity, steps);
    FinishComesIff(tasks, capacity, steps);
    RunsMirror(tasks, capacity, steps);
    if s.answer.Some? {
      assert Finish in s.sent[..s.taken];
    } else {
      assert !Enabled(tasks, capacity, s, Receive);
      assert s.sent[..s.taken] == s.sent;
      forall i | 0 <= i < |s.stages| ensures !s.stages[i].Finishing? {
        assert !Enabled(tasks, capacity, s, SendFinish(i));
      }
    }
  }

  /** A lone file that reads at another size than declared: its part arrives, and the response hangs. */
  lemma ChangedFileHangs(f: File, content: Bytes, capacity: nat)
    requires f.size != |content| && Weight(f) < U64 && capacity > 0
    ensures var steps := [Load(0, Some(content)), Write(0), Subtract(0), Receive];
            && IsRun([f], capacity, steps)
            && var s := After([f], capacity, steps);
               Stuck([f], capacity, s) && s.answer.None?
  {
    var tasks, part := [f], Frame(f.path, content);
    assert Total(tasks) == Weight(f) by { assert tasks[..0] == []; }
    var load, write, subtract := Load(0, Some(content)), Write(0), Subtract(0);
    Extend(tasks, capacity, [], load);
    assert [] + [load] == [load];
    assert After(tasks, capacity, [load]).stages == [Writing(part)];
    Extend(tasks, capacity, [load], write);
    assert [load] + [write] == [load, write];
    assert After(tasks, capacity, [load, write]).stages == [Written(|part|)];
    Extend(tasks, capacity, [load, write], subtract);
    assert [load, write] + [subtract] == [load, write, subtract];
    assert After(tasks, capacity, [load, write, subtract]).stages == [Ended];
    Extend(tasks, capacity, [load, write, subtract], Receive);
    assert [load, write, subtract] + [Receive] == [load, write, subtract, Receive];
  }

  lemma Extend(tasks: seq<File>, capacity: nat, steps: seq<Step>, step: Step)
    requires IsRun(tasks, capacity, steps) && Enabled(tasks, capacity, After(tasks, capacity, steps), step)
    ensures IsRun(tasks, capacity, steps + [step])
    ensures After(tasks, capacity, steps + [step]) == Apply(tasks, capacity, After(tasks, capacity, steps), step)
  {
    assert (steps + [step])[..|steps|] == steps;
  }

  /** Once the receiver is gone nothing enters the channel, no answer comes, and a task whose write fails ends without subtracting. */
  lemma AfterHangup(tasks: seq<File>, capacity: nat, s: State, step: Step)
    requires Sized(tasks, s) && Enabled(tasks, capacity, s, step) && s.gone
    ensures var s' := Apply(tasks, capacity, s, step);
            && s'.gone && s'.sent == s.sent && s'.answer == s.answer && s'.taken == s.taken
            && (step.Write? ==> s'.stages == s.stages[step.i := Ended] && s'.unload == s.unload)
            && (step.SendFinish? ==> s'.stages == s.stages[step.i := Ended] && s'.unload == s.unload)
  {
  }

  /** The channel never holds more than its capacity while the receiver stays, and the countdown stays in 64 bits. */
  lemma {:induction false} RunsFit(tasks: seq<File>, capacity: nat, steps: seq<Step>)
    requires IsRun(tasks, capacity, steps)
    ensures var s := After(tasks, capacity, steps);
            && s.unload < U64 && s.taken <= |s.sent| && |s.sent| - s.taken <= capacity
    decreases |steps|
  {
    if steps != [] {
      RunsFit(tasks, capacity, steps[..|steps| - 1]);
    }
  }
}
