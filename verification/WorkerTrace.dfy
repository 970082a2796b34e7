/** Where the results of the worker pool come from: the main thread collects what the workers' steps have returned. */
module WorkerTrace {
  import opened Basics
  import opened WorkerPool

  /** The job in the hands of the worker that takes this step. */
  ghost function JobAt(s: State, step: Step): Job {
    if (step.Inspect? || step.Finish?) && step.w < |s.workers| && InHand(s.workers[step.w]) then s.workers[step.w].job
    else SENTINEL
  }

  /**
   * The result a step puts into the output queue: a launched job with the code it finished with, a job inspected after
   * the interrupt as a break, and a job to be skipped as it was.
   */
  ghost function Returned(c: Setup, s: State, step: Step): seq<Job> {
    var id := JobAt(s, step).id;
    if step.Finish? then [Job(id, false, false, step.rc)]
    else if step.Inspect? && id < |c.skips| && s.threadExit then [Job(id, true, c.skips[id], 0)]
    else if step.Inspect? && id < |c.skips| && c.skips[id] then [Job(id, false, true, 0)]
    else []
  }

  /** The results of the first k steps, in the order of the steps. */
  ghost function Log(c: Setup, states: seq<State>, steps: seq<Step>, k: nat): seq<Job>
    requires |states| == |steps| + 1 && k <= |steps|
  {
    if k == 0 then [] else Log(c, states, steps, k - 1) + Returned(c, states[k - 1], steps[k - 1])
  }

  lemma StepReturns(c: Setup, s: State, step: Step)
    requires Inv(c, s) && Enabled(c, s, step)
    ensures var t := Apply(c, s, step);
            t.collected + t.outputQueue == s.collected + s.outputQueue + Returned(c, s, step)
  {
    if step.Inspect? || step.Finish? {
      assert WorkerOk(c, s.workers[step.w], step.w, s.spawned, s.joined);
      hide Inv;
      var none: seq<Job> := [];
      assert s.collected + s.outputQueue + none == s.collected + s.outputQueue;
    }
  }

  /** Nothing is lost, repeated, altered or reordered between a worker's step and the main thread. */
  lemma {:induction false} ResultsAreLogged(c: Setup, states: seq<State>, steps: seq<Step>, k: nat)
    requires IsRun(c, states, steps) && k <= |steps|
    ensures states[k].collected + states[k].outputQueue == Log(c, states, steps, k)
  {
    if k > 0 {
      ResultsAreLogged(c, states, steps, k - 1);
      RunInv(c, states, steps, k - 1);
      hide Inv;
      StepReturns(c, states[k - 1], steps[k - 1]);
    }
  }

  /** At the end of a run the main thread has collected all that was returned. */
  lemma CollectedIsLogged(c: Setup, states: seq<State>, steps: seq<Step>)
    requires IsRun(c, states, steps) && OnlyInterrupts(c, states[|steps|])
    requires c.processors >= 1 || c.skips == []
    ensures states[|steps|].collected == Log(c, states, steps, |steps|)
  {
    MaximalRunsEndCleanly(c, states, steps);
    ResultsAreLogged(c, states, steps, |steps|);
    var s := states[|steps|];
    assert s.outputQueue == [];
    assert s.collected + s.outputQueue == s.collected;
  }

  // ---------- the counters, in terms of the steps ----------

  /** The step finishes a job with this code; without a code given, with one other than 0, 1 and 2. */
  ghost predicate FinishesWith(step: Step, code: Option<int>) {
    step.Finish? && if code.Some? then step.rc == code.value else step.rc != 0 && step.rc != 1 && step.rc != 2
  }

  /** How many jobs were finished with this code; without a code given, with one other than 0, 1 and 2. */
  ghost function Finished(steps: seq<Step>, code: Option<int>): nat {
    if steps == [] then 0 else
      Finished(steps[..|steps| - 1], code) + One(FinishesWith(steps[|steps| - 1], code))
  }

  /** How many jobs were inspected after the interrupt. */
  ghost function Interrupted(states: seq<State>, steps: seq<Step>): nat
    requires |states| >= |steps|
  {
    if steps == [] then 0 else
      var n := |steps| - 1;
      Interrupted(states[..n], steps[..n]) + One(steps[n].Inspect? && states[n].threadExit)
  }

  /** How many jobs to be skipped were inspected while there was no interrupt. */
  ghost function Skipped(states: seq<State>, steps: seq<Step>): nat
    requires |states| >= |steps|
  {
    if steps == [] then 0 else
      var n := |steps| - 1;
      Skipped(states[..n], steps[..n])
      + One(steps[n].Inspect? && !states[n].threadExit && JobAt(states[n], steps[n]).isSkip)
  }

  lemma InspectedJob(c: Setup, s: State, step: Step)
    requires Inv(c, s) && Enabled(c, s, step) && (step.Inspect? || step.Finish?)
    ensures FromDispatch(c, JobAt(s, step))
  {
    assert WorkerOk(c, s.workers[step.w], step.w, s.spawned, s.joined);
  }

  lemma CountMore(jobs: seq<Job>, more: seq<Job>, v: Verdict)
    requires |more| <= 1
    ensures VerdictCount(jobs + more, v) == VerdictCount(jobs, v) + One(more != [] && VerdictOf(more[0]) == v)
  {
    if more != [] {
      assert (jobs + more)[..|jobs|] == jobs;
    } else {
      assert jobs + more == jobs;
    }
  }

  ghost predicate FinishesTallied(c: Setup, states: seq<State>, steps: seq<Step>, k: nat)
    requires |states| == |steps| + 1 && k <= |steps|
  {
    var log, done := Log(c, states, steps, k), steps[..k];
    && VerdictCount(log, PASS) == Finished(done, Some(0))
    && VerdictCount(log, FAIL) == Finished(done, Some(1))
    && VerdictCount(log, VALGR) == Finished(done, Some(2))
    && VerdictCount(log, CRASH) == Finished(done, None)
  }

  ghost predicate InspectionsTallied(c: Setup, states: seq<State>, steps: seq<Step>, k: nat)
    requires |states| == |steps| + 1 && k <= |steps|
  {
    var log, done := Log(c, states, steps, k), steps[..k];
    && VerdictCount(log, SKIP) == Skipped(states[..k], done)
    && VerdictCount(log, INTERRUPTED) == Interrupted(states[..k], done)
  }

  /** What the result of one step counts as. */
  lemma ReturnedVerdict(c: Setup, s: State, step: Step)
    requires step.Inspect? || step.Finish? ==> FromDispatch(c, JobAt(s, step))
    ensures var r := Returned(c, s, step);
            && |r| <= 1
            && (r != [] && VerdictOf(r[0]) == PASS <==> FinishesWith(step, Some(0)))
            && (r != [] && VerdictOf(r[0]) == FAIL <==> FinishesWith(step, Some(1)))
            && (r != [] && VerdictOf(r[0]) == VALGR <==> FinishesWith(step, Some(2)))
            && (r != [] && VerdictOf(r[0]) == CRASH <==> FinishesWith(step, None))
            && (r != [] && VerdictOf(r[0]) == SKIP <==> step.Inspect? && !s.threadExit && JobAt(s, step).isSkip)
            && (r != [] && VerdictOf(r[0]) == INTERRUPTED <==> step.Inspect? && s.threadExit)
  {
  }

  lemma {:induction false} FinishedMore(steps: seq<Step>, k: nat, code: Option<int>)
    requires k < |steps|
    ensures Finished(steps[..k + 1], code)
            == Finished(steps[..k], code) + One(FinishesWith(steps[k], code))
  {
    assert steps[..k + 1][..k] == steps[..k];
  }

  lemma InspectedMore(states: seq<State>, steps: seq<Step>, k: nat)
    requires |states| >= |steps| && k < |steps|
    ensures Skipped(states[..k + 1], steps[..k + 1])
            == Skipped(states[..k], steps[..k])
               + One(steps[k].Inspect? && !states[k].threadExit && JobAt(states[k], steps[k]).isSkip)
    ensures Interrupted(states[..k + 1], steps[..k + 1])
            == Interrupted(states[..k], steps[..k]) + One(steps[k].Inspect? && states[k].threadExit)
  {
    assert steps[..k + 1][..k] == steps[..k] && states[..k + 1][..k] == states[..k];
  }

  lemma VerdictTallied(c: Setup, states: seq<State>, steps: seq<Step>, k: nat, v: Verdict, code: Option<int>)
    requires |states| == |steps| + 1 && k < |steps|
    requires VerdictCount(Log(c, states, steps, k), v) == Finished(steps[..k], code)
    requires var r := Returned(c, states[k], steps[k]);
             |r| <= 1 && (r != [] && VerdictOf(r[0]) == v <==> FinishesWith(steps[k], code))
    ensures VerdictCount(Log(c, states, steps, k + 1), v) == Finished(steps[..k + 1], code)
  {
    var log, more := Log(c, states, steps, k), Returned(c, states[k], steps[k]);
    assert Log(c, states, steps, k + 1) == log + more;
    hide Returned, Log, VerdictOf, VerdictCount, Finished, FinishesWith;
    CountMore(log, more, v);
    FinishedMore(steps, k, code);
  }

  lemma FinishTallied(c: Setup, states: seq<State>, steps: seq<Step>, k: nat)
    requires |states| == |steps| + 1 && k < |steps| && FinishesTallied(c, states, steps, k)
    requires steps[k].Inspect? || steps[k].Finish? ==> FromDispatch(c, JobAt(states[k], steps[k]))
    ensures FinishesTallied(c, states, steps, k + 1)
  {
    hide Returned, Log, VerdictOf, VerdictCount, Finished, FinishesWith, JobAt, FromDispatch;
    ReturnedVerdict(c, states[k], steps[k]);
    VerdictTallied(c, states, steps, k, PASS, Some(0));
    VerdictTallied(c, states, steps, k, FAIL, Some(1));
    VerdictTallied(c, states, steps, k, VALGR, Some(2));
    VerdictTallied(c, states, steps, k, CRASH, None);
  }

  lemma InspectionTallied(c: Setup, states: seq<State>, steps: seq<Step>, k: nat)
    requires |states| == |steps| + 1 && k < |steps| && InspectionsTallied(c, states, steps, k)
    requires steps[k].Inspect? || steps[k].Finish? ==> FromDispatch(c, JobAt(states[k], steps[k]))
    ensures InspectionsTallied(c, states, steps, k + 1)
  {
    var log, more := Log(c, states, steps, k), Returned(c, states[k], steps[k]);
    assert Log(c, states, steps, k + 1) == log + more;
    ReturnedVerdict(c, states[k], steps[k]);
    hide Returned, Log, VerdictOf, VerdictCount, Skipped, Interrupted, JobAt, FromDispatch;
    CountMore(log, more, SKIP);
    CountMore(log, more, INTERRUPTED);
    InspectedMore(states, steps, k);
  }

  lemma {:induction false} LogTallied(c: Setup, states: seq<State>, steps: seq<Step>, k: nat)
    requires IsRun(c, states, steps) && k <= |steps|
    ensures FinishesTallied(c, states, steps, k) && InspectionsTallied(c, states, steps, k)
  {
    if k > 0 {
      LogTallied(c, states, steps, k - 1);
      RunInv(c, states, steps, k - 1);
      hide Inv, Apply, FinishesTallied, InspectionsTallied, Log;
      if steps[k - 1].Inspect? || steps[k - 1].Finish? {
        InspectedJob(c, states[k - 1], steps[k - 1]);
      }
      FinishTallied(c, states, steps, k - 1);
      InspectionTallied(c, states, steps, k - 1);
    }
  }

  lemma {:induction false} NoneFinished(steps: seq<Step>, code: Option<int>)
    ensures Finished(steps, code) == 0 <==>
            forall i :: 0 <= i < |steps| ==> !FinishesWith(steps[i], code)
  {
    if steps != [] {
      var n := |steps| - 1;
      NoneFinished(steps[..n], code);
      assert steps == steps[..n] + [steps[n]];
    }
  }

  lemma {:induction false} NoneInterrupted(states: seq<State>, steps: seq<Step>)
    requires |states| >= |steps|
    ensures Interrupted(states, steps) == 0 <==>
            forall i :: 0 <= i < |steps| && steps[i].Inspect? ==> !states[i].threadExit
  {
    if steps != [] {
      var n := |steps| - 1;
      NoneInterrupted(states[..n], steps[..n]);
      assert steps == steps[..n] + [steps[n]];
      assert forall i :: 0 <= i < n ==> states[..n][i] == states[i];
    }
  }

  lemma GoodVerdicts(results: seq<Job>)
    ensures (forall j :: j in results ==> VerdictOf(j).PASS? || VerdictOf(j).SKIP?) <==>
            (forall j :: j in results ==> !j.isBreak && (j.isSkip || j.returncode == 0))
  {
  }

  /** Each counter is the number of jobs that were finished with its codes, or skipped. */
  lemma CountersOfRun(c: Setup, states: seq<State>, steps: seq<Step>)
    requires IsRun(c, states, steps) && OnlyInterrupts(c, states[|steps|])
    requires c.processors >= 1 || c.skips == []
    ensures var n := CountersOf(states[|steps|].collected);
            && n.passed == Finished(steps, Some(0)) && n.failed == Finished(steps, Some(1))
            && n.valgrind == Finished(steps, Some(2)) && n.crashed == Finished(steps, None)
            && n.skipped == Skipped(states[..|steps|], steps)
            && |c.skips| == n.passed + n.failed + n.valgrind + n.crashed + n.skipped
                            + Interrupted(states[..|steps|], steps)
  {
    var results := states[|steps|].collected;
    CollectedIsLogged(c, states, steps);
    LogTallied(c, states, steps, |steps|);
    MaximalRunsEndCleanly(c, states, steps);
    assert |results| == |c.skips|;
    VerdictsAddUp(results);
    hide IsRun, OnlyInterrupts, CleanEnd, Log, Finished, Skipped, Interrupted, VerdictCount, VerdictOf;
    assert steps[..|steps|] == steps;
  }

  /** The driver returns 0 exactly if every result is a skip or a zero, and none a break. */
  lemma ZeroMeansGoodResults(c: Setup, states: seq<State>, steps: seq<Step>)
    requires IsRun(c, states, steps) && OnlyInterrupts(c, states[|steps|])
    requires c.processors >= 1 || c.skips == []
    ensures StatusOf(CountersOf(states[|steps|].collected), |c.skips|) == 0 <==>
            forall j :: j in states[|steps|].collected ==> !j.isBreak && (j.isSkip || j.returncode == 0)
  {
    var results := states[|steps|].collected;
    MaximalRunsEndCleanly(c, states, steps);
    assert |results| == |c.skips|;
    VerdictsAddUp(results);
    GoodVerdicts(results);
    hide IsRun, OnlyInterrupts, CleanEnd, VerdictCount, VerdictOf;
  }

  ghost predicate NoFailure(states: seq<State>, steps: seq<Step>)
    requires |states| >= |steps|
  {
    && (forall i :: 0 <= i < |steps| && steps[i].Finish? ==> steps[i].rc == 0)
    && (forall i :: 0 <= i < |steps| && steps[i].Inspect? ==> !states[i].threadExit)
  }

  lemma FinishedWell(steps: seq<Step>)
    ensures Finished(steps, Some(1)) + Finished(steps, Some(2)) + Finished(steps, None) == 0 <==>
            forall i :: 0 <= i < |steps| && steps[i].Finish? ==> steps[i].rc == 0
  {
    hide Finished;
    NoneFinished(steps, Some(1));
    NoneFinished(steps, Some(2));
    NoneFinished(steps, None);
  }

  /** The driver returns 0 exactly if every job that finished did so with 0 and none was met after an interrupt. */
  lemma ZeroMeansNoFailure(c: Setup, states: seq<State>, steps: seq<Step>)
    requires IsRun(c, states, steps) && OnlyInterrupts(c, states[|steps|])
    requires c.processors >= 1 || c.skips == []
    ensures StatusOf(CountersOf(states[|steps|].collected), |c.skips|) == 0 <==> NoFailure(states, steps)
  {
    assert |states| == |steps| + 1;
    hide IsRun, OnlyInterrupts, CountersOf, StatusOf, Finished, Interrupted, NoFailure;
    StatusFromSteps(c, states, steps);
    StepsWell(states, steps);
  }

  lemma StepsWell(states: seq<State>, steps: seq<Step>)
    requires |states| >= |steps|
    ensures NoFailure(states, steps) <==>
            Finished(steps, Some(1)) + Finished(steps, Some(2)) + Finished(steps, None)
            + Interrupted(states[..|steps|], steps) == 0
  {
    hide Finished, Interrupted;
    FinishedWell(steps);
    NoneInterrupted(states[..|steps|], steps);
    assert forall i :: 0 <= i < |steps| ==> states[..|steps|][i] == states[i];
  }

  lemma StatusFromSteps(c: Setup, states: seq<State>, steps: seq<Step>)
    requires IsRun(c, states, steps) && OnlyInterrupts(c, states[|steps|])
    requires c.processors >= 1 || c.skips == []
    ensures StatusOf(CountersOf(states[|steps|].collected), |c.skips|) == 0 <==>
            Finished(steps, Some(1)) + Finished(steps, Some(2)) + Finished(steps, None)
            + Interrupted(states[..|steps|], steps) == 0
  {
    CountersOfRun(c, states, steps);
    hide IsRun, OnlyInterrupts, Finished, Skipped, Interrupted, CountersOf;
  }
}
