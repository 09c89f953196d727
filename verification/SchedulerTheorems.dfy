// The run-level guarantees of the scheduler: safety, progress, termination and
// independence from the schedule, for every number of targets and every interleaving.
module SchedulerTheorems {
  import opened Base
  import opened Scheduler
  import opened SchedulerProofs
  import DnsCheck
  import Speed

  lemma {:induction false} InvExec(env: Env, s: State, steps: seq<Step>)
    requires Inv(env, s) && Exec(env, s, steps).Some?
    ensures Inv(env, Exec(env, s, steps).value)
    decreases |steps|
  {
    if steps != [] {
      InvNext(env, s, steps[0]);
      InvExec(env, Next(env, s, steps[0]).value, steps[1..]);
    }
  }

  /** The state after a run of the program from its start. */
  ghost predicate Reaches(env: Env, steps: seq<Step>, s: State) {
    Exec(env, Init(env), steps) == Some(s)
  }

  lemma ReachableInv(env: Env, steps: seq<Step>, s: State)
    requires Reaches(env, steps, s)
    ensures Inv(env, s)
  {
    InvInit(env);
    InvExec(env, Init(env), steps);
  }

  // -------------------------------------------------------- termination

  function Weight(t: Task): nat {
    2 * Rank(t.phase) + if t.verifying then 1 else 0
  }

  function Flag(b: bool): nat {
    if b then 1 else 0
  }

  /** Steps still to come. */
  function Measure(s: State): nat {
    Sum(Weight, s.tasks) + Flag(s.interceptRunning) + Flag(s.localRunning) + Flag(!s.done) + Flag(s.report.None?)
  }

  /** One task got lighter; the run-wide checks were left alone. */
  ghost predicate Lowered(s: State, s': State, i: nat) {
    && i < |s.tasks| == |s'.tasks|
    && s'.tasks == s.tasks[i := s'.tasks[i]] && Weight(s'.tasks[i]) < Weight(s.tasks[i])
    && s'.interceptRunning == s.interceptRunning && s'.localRunning == s.localRunning
    && s'.intercept == s.intercept && s'.local == s.local && s'.done == s.done && s'.report == s.report
  }

  lemma MoveSlotLowers(env: Env, s: State, i: nat)
    requires i < |s.tasks| && MoveSlot(env, s, i).Some?
    ensures Lowered(s, MoveSlot(env, s, i).value, i)
  {
  }

  lemma ControlLowers(env: Env, s: State, i: nat)
    requires i < |s.tasks| && (s.tasks[i].phase.AtControl? || s.tasks[i].phase.InControl?)
    requires MoveOnce(env, s, i).Some?
    ensures Lowered(s, MoveOnce(env, s, i).value, i)
  {
  }

  lemma BaselineLowers(env: Env, s: State, i: nat)
    requires i < |s.tasks| && (s.tasks[i].phase.AtBaseline? || s.tasks[i].phase.InBaseline?)
    requires MoveOnce(env, s, i).Some?
    ensures Lowered(s, MoveOnce(env, s, i).value, i)
  {
  }

  lemma MoveOnceLowers(env: Env, s: State, i: nat)
    requires i < |s.tasks| && MoveOnce(env, s, i).Some?
    ensures Lowered(s, MoveOnce(env, s, i).value, i)
  {
    if s.tasks[i].phase.AtControl? || s.tasks[i].phase.InControl? {
      ControlLowers(env, s, i);
    } else {
      BaselineLowers(env, s, i);
    }
  }

  lemma PublishLowers(env: Env, s: State, i: nat)
    requires Shaped(env, s) && i < |s.tasks| && Publish(env, s, i).Some?
    ensures Lowered(s, Publish(env, s, i).value, i)
  {
  }

  lemma ActLowers(env: Env, s: State, i: nat)
    requires Inv(env, s) && i < |s.tasks| && ActOn(env, s, i).Some?
    ensures Lowered(s, ActOn(env, s, i).value, i)
  {
    var p, t := env.programs[i], s.tasks[i];
    if Move(p, t, s.control, s.baseline).Some? {
      assert TaskOk(env, s, i);
      MoveRecord(p, t, s.control, s.baseline);
    } else if MoveSlot(env, s, i).Some? {
      MoveSlotLowers(env, s, i);
    } else if MoveOnce(env, s, i).Some? {
      MoveOnceLowers(env, s, i);
    } else {
      PublishLowers(env, s, i);
    }
  }

  lemma StepLowers(env: Env, s: State, step: Step)
    requires Inv(env, s) && Next(env, s, step).Some?
    ensures Measure(Next(env, s, step).value) < Measure(s)
  {
    var s' := Next(env, s, step).value;
    match step {
      case Launch =>
        assert TaskOk(env, s, s.launched);
        SumUpdate(Weight, s.tasks, s.launched, s'.tasks[s.launched]);
      case Act(i) =>
        ActLowers(env, s, i);
        SumUpdate(Weight, s.tasks, i, s'.tasks[i]);
      case Verified(i) =>
        SumUpdate(Weight, s.tasks, i, s'.tasks[i]);
      case _ =>
    }
  }

  lemma {:induction false} RunIsBounded(env: Env, s: State, steps: seq<Step>)
    requires Inv(env, s) && Exec(env, s, steps).Some?
    ensures |steps| + Measure(Exec(env, s, steps).value) <= Measure(s)
    decreases |steps|
  {
    if steps != [] {
      InvNext(env, s, steps[0]);
      StepLowers(env, s, steps[0]);
      RunIsBounded(env, Next(env, s, steps[0]).value, steps[1..]);
    }
  }

  /** No run takes more than 28 steps a target and four more, however it is scheduled. */
  lemma EveryRunTerminates(env: Env, steps: seq<Step>, s: State)
    requires Reaches(env, steps, s)
    ensures |steps| <= 28 * |env.programs| + 4
  {
    InvInit(env);
    RunIsBounded(env, Init(env), steps);
    SumNewTasks(Weight, Init(env).tasks, NEW_TASK);
  }

  // ----------------------------------------------------------- progress

  predicate IsTargetStep(step: Step) {
    step.Launch? || step.Act? || step.Verified?
  }

  predicate Settled(t: Task) {
    t.phase.Parked? || t.phase.Finished?
  }

  /** A target inside checkTarget can step, or waits for one that can. */
  lemma HolderCanStep(env: Env, s: State, i: nat) returns (step: Step)
    requires Inv(env, s) && i < |s.tasks| && Holding(s.tasks[i].phase)
    ensures IsTargetStep(step) && Next(env, s, step).Some?
  {
    var t := s.tasks[i];
    assert TaskOk(env, s, i);
    SumUpdate(HoldUnit, s.tasks, i, NEW_TASK);
    if t.verifying && t.phase.Joining? {
      step := Verified(i);
    } else if t.phase.AtControl? && s.control.Running? {
      step := Act(s.control.owner);
    } else if t.phase.AtBaseline? && s.baseline.Running? {
      step := Act(s.baseline.owner);
    } else {
      step := Act(i);
    }
  }

  lemma {:induction false} SomeoneHolds(tasks: seq<Task>) returns (i: nat)
    requires Sum(HoldUnit, tasks) > 0
    ensures i < |tasks| && Holding(tasks[i].phase)
  {
    if Holding(tasks[0].phase) {
      i := 0;
    } else {
      var j := SomeoneHolds(tasks[1..]);
      i := j + 1;
    }
  }

  /** While some target has not reached the done channel, a target step is enabled. */
  lemma TargetCanStep(env: Env, s: State, i: nat) returns (step: Step)
    requires Inv(env, s) && env.concurrency >= 1
    requires i < |s.tasks| && !Settled(s.tasks[i])
    ensures IsTargetStep(step) && Next(env, s, step).Some?
  {
    assert TaskOk(env, s, i);
    if s.launched < |s.tasks| {
      step := Launch;
    } else if s.tasks[i].phase.Waiting? {
      if s.held < env.concurrency {
        step := Act(i);
      } else {
        var j := SomeoneHolds(s.tasks);
        step := HolderCanStep(env, s, j);
      }
    } else {
      step := HolderCanStep(env, s, i);
    }
  }

  /** No deadlock: until the report is returned, some step is enabled. */
  lemma Progress(env: Env, steps: seq<Step>, s: State) returns (step: Step)
    requires Reaches(env, steps, s) && env.concurrency >= 1 && s.report.None?
    ensures Next(env, s, step).Some?
  {
    ReachableInv(env, steps, s);
    if s.launched < |s.tasks| {
      step := Launch;
    } else if i :| 0 <= i < |s.tasks| && !Settled(s.tasks[i]) {
      step := TargetCanStep(env, s, i);
    } else if s.interceptRunning {
      step := InterceptDone;
    } else if s.localRunning {
      step := LocalDone;
    } else if !s.done {
      step := CloseDone;
    } else if i :| 0 <= i < |s.tasks| && s.tasks[i].phase.Parked? {
      assert TaskOk(env, s, i);
      step := Act(i);
    } else {
      step := Return;
    }
  }

  /** A run in which nothing more can happen has returned its report. */
  lemma StuckIsReported(env: Env, steps: seq<Step>, s: State)
    requires Reaches(env, steps, s) && env.concurrency >= 1
    requires forall step :: Next(env, s, step).None?
    ensures s.report.Some?
  {
    if s.report.None? {
      var step := Progress(env, steps, s);
    }
  }

  /** The run-wide checks are where they were: running or published, and done open or closed. */
  ghost predicate SameChecks(s: State, s': State) {
    && s'.interceptRunning == s.interceptRunning && s'.intercept == s.intercept
    && s'.localRunning == s.localRunning && s'.local == s.local && s'.done == s.done
  }

  lemma TargetStepLeavesChecks(env: Env, s: State, step: Step)
    requires Inv(env, s) && IsTargetStep(step) && Next(env, s, step).Some?
    ensures SameChecks(s, Next(env, s, step).value)
  {
    if step.Act? {
      ActLowers(env, s, step.target);
    }
  }

  /** The run-wide checks are not needed to get every target to the done channel. */
  lemma {:induction false} TargetsParkAlone(env: Env, s: State) returns (steps: seq<Step>)
    requires Inv(env, s) && env.concurrency >= 1
    ensures forall step :: step in steps ==> IsTargetStep(step)
    ensures Exec(env, s, steps).Some?
    ensures forall i :: 0 <= i < |env.programs| ==> Settled(Exec(env, s, steps).value.tasks[i])
    ensures SameChecks(s, Exec(env, s, steps).value)
    decreases Measure(s)
  {
    if i :| 0 <= i < |s.tasks| && !Settled(s.tasks[i]) {
      var step := TargetCanStep(env, s, i);
      InvNext(env, s, step);
      StepLowers(env, s, step);
      TargetStepLeavesChecks(env, s, step);
      var rest := TargetsParkAlone(env, Next(env, s, step).value);
      steps := [step] + rest;
    } else {
      steps := [];
    }
  }

  // -------------------------------------------- independence of the schedule

  lemma OutcomeIgnoresUnused(p: Program, c: DnsCheck.Lookups, b: Speed.Measurement, c': DnsCheck.Lookups,
                             b': Speed.Measurement)
    requires p.needsControl ==> c == c'
    requires NeedsBaseline(p, c) ==> b == b'
    ensures Outcome(p, c, b) == Outcome(p, c', b')
  {
  }

  /** The report is the sequential one, for the values the two Onces hold at the end. */
  lemma ReportIsSequential(env: Env, steps: seq<Step>, s: State)
    requires Reaches(env, steps, s) && s.report.Some?
    ensures s.report == Some(SequentialReport(env, ControlValue(s.control), BaselineValue(s.baseline)))
    ensures s.control.Done? ==> s.control.value == env.control(s.control.owner)
    ensures s.baseline.Done? ==> s.baseline.value == env.baseline(s.baseline.owner)
  {
    ReachableInv(env, steps, s);
  }

  /** When the shared lookups do not depend on who runs them, every schedule gives one report. */
  lemma ScheduleIndependence(env: Env, steps: seq<Step>, s: State, control: DnsCheck.Lookups,
                             baseline: Speed.Measurement)
    requires Reaches(env, steps, s) && s.report.Some?
    requires forall i: nat :: env.control(i) == control && env.baseline(i) == baseline
    ensures s.report == Some(SequentialReport(env, control, baseline))
  {
    ReachableInv(env, steps, s);
    var c, b := ControlValue(s.control), BaselineValue(s.baseline);
    forall i | 0 <= i < |env.programs|
      ensures Outcome(env.programs[i], c, b) == Outcome(env.programs[i], control, baseline)
    {
      assert TaskOk(env, s, i) && s.tasks[i].phase.Finished?;
      OutcomeIgnoresUnused(env.programs[i], c, b, control, baseline);
    }
    assert SequentialSlots(env, c, b) == SequentialSlots(env, control, baseline);
    assert SequentialDohDown(env, c, b) == SequentialDohDown(env, control, baseline);
  }

  // ------------------------------------------------------------- safety

  /** At most Concurrency targets are inside checkTarget at any time. */
  lemma AtMostConcurrency(env: Env, steps: seq<Step>, s: State, inside: set<nat>)
    requires Reaches(env, steps, s) && env.concurrency >= 0
    requires forall i :: i in inside ==> i < |s.tasks| && Holding(s.tasks[i].phase)
    ensures |inside| <= env.concurrency
  {
    ReachableInv(env, steps, s);
    HoldersCounted(s.tasks, inside);
  }

  lemma {:induction false} HoldersCounted(tasks: seq<Task>, inside: set<nat>)
    requires forall i :: i in inside ==> i < |tasks| && Holding(tasks[i].phase)
    ensures |inside| <= Sum(HoldUnit, tasks)
    decreases inside
  {
    if inside != {} {
      var i :| i in inside;
      SumUpdate(HoldUnit, tasks, i, NEW_TASK);
      HoldersCounted(tasks[i := NEW_TASK], inside - {i});
    }
  }

  /** Slots: empty until their target is decided, which happens after done; written once. */
  lemma SlotsWrittenOnce(env: Env, steps: seq<Step>, s: State, i: nat)
    requires Reaches(env, steps, s) && i < |env.programs|
    ensures s.writes[i] <= 1
    ensures s.slots[i].Some? <==> s.writes[i] == 1
    ensures s.slots[i].Some? ==> s.done
    ensures s.report.Some? ==> s.writes[i] == 1 && s.report.value.targets == s.slots
  {
    ReachableInv(env, steps, s);
    assert TaskOk(env, s, i);
    if s.report.Some? {
      var expected := SequentialSlots(env, ControlValue(s.control), BaselineValue(s.baseline));
      forall j | 0 <= j < |s.slots| ensures s.slots[j] == expected[j] {
        assert TaskOk(env, s, j);
      }
      assert s.slots == expected;
    }
  }

  /** Once done is closed, the published run-wide results never change again. */
  lemma {:induction false} DoneFreezes(env: Env, s: State, steps: seq<Step>)
    requires Inv(env, s) && s.done && Exec(env, s, steps).Some?
    ensures var s' := Exec(env, s, steps).value;
      s'.done && s'.intercept == s.intercept == FinalIntercept(env) && s'.local == s.local == env.local
    decreases |steps|
  {
    if steps != [] {
      InvNext(env, s, steps[0]);
      DoneStays(env, s, steps[0]);
      DoneFreezes(env, Next(env, s, steps[0]).value, steps[1..]);
    }
  }

  lemma DoneStays(env: Env, s: State, step: Step)
    requires Inv(env, s) && s.done && Next(env, s, step).Some?
    ensures Next(env, s, step).value.done
  {
    if step.Act? {
      ActLowers(env, s, step.target);
    }
  }

  /** The control lookup runs at most once, and in a finished run exactly when a target needs it. */
  lemma ControlRunsOnce(env: Env, steps: seq<Step>, s: State)
    requires Reaches(env, steps, s)
    ensures s.controlRuns <= 1
    ensures s.controlRuns == 1 ==> exists i :: 0 <= i < |env.programs| && env.programs[i].needsControl
    ensures s.report.Some? ==>
      (s.controlRuns == 1 <==> exists i :: 0 <= i < |env.programs| && env.programs[i].needsControl)
  {
    ReachableInv(env, steps, s);
    if s.report.Some? {
      if i :| 0 <= i < |env.programs| && env.programs[i].needsControl {
        assert TaskOk(env, s, i) && s.tasks[i].phase.Finished?;
      }
    }
  }

  /** The speed baseline is measured at most once, and in a finished run exactly when a target's speed
      is to be compared with it. */
  lemma BaselineRunsOnce(env: Env, steps: seq<Step>, s: State)
    requires Reaches(env, steps, s)
    ensures s.baselineRuns <= 1
    ensures s.baselineRuns == 1 ==>
      exists i :: 0 <= i < |env.programs| && NeedsBaseline(env.programs[i], ControlValue(s.control))
    ensures s.report.Some? ==>
      (s.baselineRuns == 1 <==>
         exists i :: 0 <= i < |env.programs| && NeedsBaseline(env.programs[i], ControlValue(s.control)))
  {
    ReachableInv(env, steps, s);
    if s.report.Some? {
      if i :| 0 <= i < |env.programs| && NeedsBaseline(env.programs[i], ControlValue(s.control)) {
        assert TaskOk(env, s, i) && s.tasks[i].phase.Finished?;
      }
    }
  }

  /** Every target that needs the control lookup is handed the one stored value. */
  lemma ReadersAgree(env: Env, steps: seq<Step>, s: State, i: nat)
    requires Reaches(env, steps, s) && i < |env.programs| && env.programs[i].needsControl
    requires s.tasks[i].phase.Connecting?
    ensures s.control.Done? && s.tasks[i].st == Some(env.programs[i].withControl(env.control(s.control.owner)))
  {
    ReachableInv(env, steps, s);
    assert TaskOk(env, s, i);
  }

  // ----------------------------------------- why Concurrency must be positive

  ghost predicate NobodyStarted(s: State) {
    && (forall i :: 0 <= i < |s.tasks| ==> s.tasks[i].phase.Unlaunched? || s.tasks[i].phase.Waiting?)
    && (forall i :: 0 <= i < |s.tasks| ==> !s.tasks[i].verifying)
    && s.held == 0 && s.report.None?
  }

  lemma {:induction false} NobodyStarts(env: Env, s: State, steps: seq<Step>)
    requires Shaped(env, s) && NobodyStarted(s) && env.concurrency <= 0 && |s.tasks| > 0
    requires Exec(env, s, steps).Some?
    ensures NobodyStarted(Exec(env, s, steps).value)
    decreases |steps|
  {
    if steps != [] {
      var s' := Next(env, s, steps[0]).value;
      assert !s.tasks[0].phase.Finished?;
      NobodyStarts(env, s', steps[1..]);
    }
  }

  /** Without a positive Concurrency no run over any targets ever returns. */
  lemma NoSlotsNoReport(env: Env, steps: seq<Step>, s: State)
    requires Reaches(env, steps, s) && env.concurrency <= 0 && |env.programs| > 0
    ensures s.report.None?
  {
    NobodyStarts(env, Init(env), steps);
  }
}
