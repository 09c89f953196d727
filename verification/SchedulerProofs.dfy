// What every interleaving of a run keeps, that every run finishes, and that its report
// does not depend on the schedule.
module SchedulerProofs {
  import opened Base
  import opened Scheduler
  import opened Pipeline
  import DnsCheck
  import Speed

  // ------------------------------------------------------ the invariant

  /** How many phases a task still has to leave. */
  function Rank(p: Phase): nat {
    match p
    case Unlaunched => 14
    case Waiting => 13
    case Resolving => 12
    case AtControl => 11
    case InControl => 10
    case HasControl => 9
    case Connecting => 8
    case AtBaseline => 7
    case InBaseline => 6
    case HasBaseline => 5
    case Joining => 4
    case Finishing => 3
    case Releasing => 2
    case Parked => 1
    case Finished => 0
  }

  /** Inside checkTarget, holding a semaphore slot. */
  predicate Holding(p: Phase) {
    2 <= Rank(p) <= 12
  }

  /** The record of a task, by phase, in terms of its layers run on their own. */
  ghost predicate RecordOk(p: Program, t: Task, c: Once<DnsCheck.Lookups>, b: Once<Speed.Measurement>) {
    var control, baseline := ControlValue(c), BaselineValue(b);
    && (Rank(t.phase) <= 8 && p.needsControl ==> c.Done?)
    && (Rank(t.phase) <= 4 && NeedsBaseline(p, control) ==> b.Done?)
    && match t.phase
       case Unlaunched => t == NEW_TASK
       case Waiting => t == NEW_TASK.(phase := Waiting)
       case Resolving => t == NEW_TASK.(phase := Resolving)
       case AtControl => p.needsControl && t == Task(AtControl, Some(p.start), false, None)
       case InControl => p.needsControl && t == Task(InControl, Some(p.start), false, None)
       case HasControl => p.needsControl && c.Done? && t == Task(HasControl, Some(p.start), false, None)
       case Connecting => t.st == Some(Resolved(p, control)) && SuspectOk(p, t)
       case AtBaseline => Connected(p, t, control)
       case InBaseline => Connected(p, t, control)
       case HasBaseline => Connected(p, t, control) && b.Done?
       case Joining => t.st == Some(Measured(p, control, baseline)) && SuspectOk(p, t)
       case Finishing => t.st == Some(Measured(p, control, baseline)) && SuspectOk(p, t) && !t.verifying
       case _ => t.st == Some(Outcome(p, control, baseline)) && !t.verifying
  }

  ghost predicate Connected(p: Program, t: Task, control: DnsCheck.Lookups) {
    var st := p.connect(Resolved(p, control));
    t.st == Some(st) && p.needsSpeed(st) && SuspectOk(p, t)
  }

  /** The suspect check is running, or its field holds what it found. */
  ghost predicate SuspectOk(p: Program, t: Task) {
    if t.verifying then p.suspect.Some? && t.verify.None? else t.verify == p.suspect
  }

  /** What a task has published: nothing before checkTarget returns. */
  ghost predicate PublishedOk(env: Env, s: State, i: nat)
    requires Shaped(env, s) && i < |s.tasks|
  {
    if Rank(s.tasks[i].phase) > 2 then !s.dohDown[i] && s.writes[i] == 0 && s.slots[i].None?
    else DeliveredOk(env, s, i, Outcome(env.programs[i], ControlValue(s.control), BaselineValue(s.baseline)))
  }

  /** After checkTarget its DoH flag; after the done channel, its slot, written once. */
  ghost predicate DeliveredOk(env: Env, s: State, i: nat, st: Run)
    requires Shaped(env, s) && i < |s.tasks|
  {
    && s.dohDown[i] == env.programs[i].dohDown(st)
    && (if s.tasks[i].phase.Finished? then
          s.done && s.writes[i] == 1 && s.slots[i] == Some(env.programs[i].decide(st, env.local, FinalIntercept(env)))
        else s.writes[i] == 0 && s.slots[i].None?)
  }

  ghost predicate TaskOk(env: Env, s: State, i: nat)
    requires Shaped(env, s) && i < |s.tasks|
  {
    && RecordOk(env.programs[i], s.tasks[i], s.control, s.baseline)
    && PublishedOk(env, s, i)
    && (s.tasks[i].phase.Unlaunched? <==> i >= s.launched)
  }

  /** Exactly the owner of a running Once is inside its body; a stored value came from its owner. */
  ghost predicate OncesOk(env: Env, s: State)
    requires Shaped(env, s)
  {
    && (forall i :: 0 <= i < |s.tasks| && s.tasks[i].phase.InControl? ==> s.control == Running(i))
    && (s.control.Running? ==> s.control.owner < |s.tasks| && s.tasks[s.control.owner].phase.InControl?)
    && (s.control.Done? ==> s.control.value == env.control(s.control.owner))
    && (!s.control.Fresh? ==> s.control.owner < |s.tasks| && env.programs[s.control.owner].needsControl)
    && s.controlRuns == (if s.control.Fresh? then 0 else 1)
    && (forall i :: 0 <= i < |s.tasks| && s.tasks[i].phase.InBaseline? ==> s.baseline == Running(i))
    && (s.baseline.Running? ==> s.baseline.owner < |s.tasks| && s.tasks[s.baseline.owner].phase.InBaseline?)
    && (s.baseline.Done? ==> s.baseline.value == env.baseline(s.baseline.owner))
    && (!s.baseline.Fresh? ==>
          && s.baseline.owner < |s.tasks|
          && (env.programs[s.baseline.owner].needsControl ==> s.control.Done?)
          && NeedsBaseline(env.programs[s.baseline.owner], ControlValue(s.control)))
    && s.baselineRuns == (if s.baseline.Fresh? then 0 else 1)
  }

  /** A program that runs the speed test once its earlier layers are done. */
  predicate NeedsBaseline(p: Program, control: DnsCheck.Lookups) {
    p.needsSpeed(p.connect(Resolved(p, control)))
  }

  /** The run-wide checks: published when they return, all of them before done closes. */
  ghost predicate ChecksOk(env: Env, s: State) {
    && (s.interceptRunning ==> env.probing && s.intercept.None?)
    && (!s.interceptRunning ==> s.intercept == FinalIntercept(env))
    && (s.localRunning ==> env.local.Some? && s.local.None?)
    && (!s.localRunning ==> s.local == env.local)
    && (s.done ==> !s.interceptRunning && !s.localRunning)
  }

  function Sum(f: Task -> nat, tasks: seq<Task>): nat {
    if tasks == [] then 0 else f(tasks[0]) + Sum(f, tasks[1..])
  }

  lemma {:induction false} SumUpdate(f: Task -> nat, tasks: seq<Task>, i: nat, t: Task)
    requires i < |tasks|
    ensures Sum(f, tasks[i := t]) == Sum(f, tasks) - f(tasks[i]) + f(t)
    ensures Sum(f, tasks) >= f(tasks[i])
  {
    if i == 0 {
      assert tasks[i := t][1..] == tasks[1..];
    } else {
      assert tasks[i := t][1..] == tasks[1..][i - 1 := t];
      SumUpdate(f, tasks[1..], i - 1, t);
    }
  }

  lemma {:induction false} SumNewTasks(f: Task -> nat, tasks: seq<Task>, t: Task)
    requires forall i :: 0 <= i < |tasks| ==> tasks[i] == t
    ensures Sum(f, tasks) == f(t) * |tasks|
  {
    if tasks != [] {
      SumNewTasks(f, tasks[1..], t);
    }
  }

  function HoldUnit(t: Task): nat {
    if Holding(t.phase) then 1 else 0
  }

  /** The semaphore counts the tasks inside checkTarget, at most Concurrency of them. */
  ghost predicate SlotsOk(env: Env, s: State) {
    && s.held == Sum(HoldUnit, s.tasks)
    && (s.held == 0 || s.held <= env.concurrency)
  }

  ghost predicate ReportOk(env: Env, s: State) {
    && s.launched <= |s.tasks|
    && (s.report.Some? ==>
          && AllFinished(s) && s.done
          && s.report == Some(SequentialReport(env, ControlValue(s.control), BaselineValue(s.baseline))))
  }

  ghost predicate Inv(env: Env, s: State) {
    && Shaped(env, s)
    && (forall i :: 0 <= i < |s.tasks| ==> TaskOk(env, s, i))
    && OncesOk(env, s) && ChecksOk(env, s) && SlotsOk(env, s) && ReportOk(env, s)
  }

  lemma InvInit(env: Env)
    ensures Inv(env, Init(env))
  {
    SumNewTasks(HoldUnit, Init(env).tasks, NEW_TASK);
  }

  // ------------------------------------------------------ preservation

  /** A Once only moves forward: started by someone, then holding a value for good. */
  ghost predicate Forward<T>(a: Once<T>, b: Once<T>) {
    a == b || (a.Fresh? && b.Running?) || (a.Running? && b.Done?)
  }

  /** A record stays right when a Once it does not wait for moves. */
  lemma RecordStable(p: Program, t: Task, c: Once<DnsCheck.Lookups>, b: Once<Speed.Measurement>,
                     c': Once<DnsCheck.Lookups>, b': Once<Speed.Measurement>)
    requires RecordOk(p, t, c, b) && Forward(c, c') && Forward(b, b')
    ensures RecordOk(p, t, c', b')
  {
  }

  lemma OutcomeStable(p: Program, t: Task, c: Once<DnsCheck.Lookups>, b: Once<Speed.Measurement>,
                     c': Once<DnsCheck.Lookups>, b': Once<Speed.Measurement>)
    requires RecordOk(p, t, c, b) && Forward(c, c') && Forward(b, b') && Rank(t.phase) <= 4
    ensures Outcome(p, ControlValue(c), BaselineValue(b)) == Outcome(p, ControlValue(c'), BaselineValue(b'))
  {
  }

  /** What a step of target `i` leaves alone. */
  ghost predicate Framed(env: Env, s: State, s': State, i: nat)
    requires Shaped(env, s) && Shaped(env, s') && i < |s.tasks|
  {
    && s'.tasks == s.tasks[i := s'.tasks[i]]
    && s'.dohDown == s.dohDown[i := s'.dohDown[i]]
    && s'.slots == s.slots[i := s'.slots[i]]
    && s'.writes == s.writes[i := s'.writes[i]]
    && Forward(s.control, s'.control) && Forward(s.baseline, s'.baseline)
    && s' == s.(tasks := s'.tasks, dohDown := s'.dohDown, slots := s'.slots, writes := s'.writes, held := s'.held,
                control := s'.control, controlRuns := s'.controlRuns, baseline := s'.baseline,
                baselineRuns := s'.baselineRuns)
  }

  lemma OtherTaskOk(env: Env, s: State, s': State, i: nat, j: nat)
    requires Shaped(env, s) && Shaped(env, s') && i < |s.tasks| && j < |s.tasks| && i != j
    requires Framed(env, s, s', i) && TaskOk(env, s, j)
    ensures TaskOk(env, s', j)
  {
    var p, t := env.programs[j], s.tasks[j];
    assert s'.tasks[j] == t && s'.dohDown[j] == s.dohDown[j];
    assert s'.slots[j] == s.slots[j] && s'.writes[j] == s.writes[j];
    RecordStable(p, t, s.control, s.baseline, s'.control, s'.baseline);
    if Rank(t.phase) <= 2 {
      OutcomeStable(p, t, s.control, s.baseline, s'.control, s'.baseline);
    }
  }

  /** Assembles the invariant after a step of target `i`. */
  lemma FramedInv(env: Env, s: State, s': State, i: nat)
    requires Inv(env, s) && Shaped(env, s') && i < |s.tasks| && Framed(env, s, s', i)
    requires TaskOk(env, s', i) && OncesOk(env, s') && SlotsOk(env, s')
    requires !s.tasks[i].phase.Finished?
    ensures Inv(env, s')
  {
    forall j | 0 <= j < |s.tasks| ensures TaskOk(env, s', j) {
      if j != i {
        OtherTaskOk(env, s, s', i, j);
      }
    }
  }

  /** A private move keeps the record right and stays inside, or outside, checkTarget. */
  lemma MoveRecord(p: Program, t: Task, c: Once<DnsCheck.Lookups>, b: Once<Speed.Measurement>)
    requires RecordOk(p, t, c, b) && Move(p, t, c, b).Some?
    ensures var t' := Move(p, t, c, b).value;
      && RecordOk(p, t', c, b)
      && Holding(t.phase) && Holding(t'.phase) && Rank(t'.phase) < Rank(t.phase) && Rank(t'.phase) > 2
      && !t'.phase.InControl? && !t'.phase.InBaseline? && !t.phase.InControl? && !t.phase.InBaseline?
  {
  }

  lemma MoveInv(env: Env, s: State, i: nat)
    requires Inv(env, s) && i < |s.tasks| && Move(env.programs[i], s.tasks[i], s.control, s.baseline).Some?
    ensures Inv(env, Put(s, i, Move(env.programs[i], s.tasks[i], s.control, s.baseline).value))
  {
    var t' := Move(env.programs[i], s.tasks[i], s.control, s.baseline).value;
    assert TaskOk(env, s, i);
    MoveRecord(env.programs[i], s.tasks[i], s.control, s.baseline);
    SumUpdate(HoldUnit, s.tasks, i, t');
    FramedInv(env, s, Put(s, i, t'), i);
  }

  /** The semaphore count follows one task's step. */
  lemma SlotsFrame(env: Env, s: State, s': State, i: nat)
    requires SlotsOk(env, s) && i < |s.tasks| == |s'.tasks| && s'.tasks == s.tasks[i := s'.tasks[i]]
    requires s'.held == s.held - HoldUnit(s.tasks[i]) + HoldUnit(s'.tasks[i])
    requires s'.held <= s.held || s'.held <= env.concurrency
    ensures SlotsOk(env, s')
  {
    SumUpdate(HoldUnit, s.tasks, i, s'.tasks[i]);
  }

  /** Tasks outside the Once bodies do not disturb them. */
  lemma OncesFrame(env: Env, s: State, s': State, i: nat)
    requires Shaped(env, s) && Shaped(env, s') && OncesOk(env, s) && i < |s.tasks|
    requires s'.tasks == s.tasks[i := s'.tasks[i]]
    requires s'.control == s.control && s'.controlRuns == s.controlRuns
    requires s'.baseline == s.baseline && s'.baselineRuns == s.baselineRuns
    requires !s.tasks[i].phase.InControl? && !s.tasks[i].phase.InBaseline?
    requires !s'.tasks[i].phase.InControl? && !s'.tasks[i].phase.InBaseline?
    ensures OncesOk(env, s')
  {
  }

  lemma AcquireTask(env: Env, s: State, i: nat)
    requires Shaped(env, s) && i < |s.tasks| && TaskOk(env, s, i) && MoveSlot(env, s, i).Some?
    requires s.tasks[i].phase.Waiting?
    ensures var s' := MoveSlot(env, s, i).value; Shaped(env, s') && Framed(env, s, s', i) && TaskOk(env, s', i)
  {
  }

  lemma ReleaseTask(env: Env, s: State, i: nat)
    requires Shaped(env, s) && i < |s.tasks| && TaskOk(env, s, i) && MoveSlot(env, s, i).Some?
    requires s.tasks[i].phase.Releasing?
    ensures var s' := MoveSlot(env, s, i).value; Shaped(env, s') && Framed(env, s, s', i) && TaskOk(env, s', i)
  {
  }

  lemma SlotStep(env: Env, s: State, s': State, i: nat)
    requires Inv(env, s) && Shaped(env, s') && i < |s.tasks| && Framed(env, s, s', i) && TaskOk(env, s', i)
    requires s'.control == s.control && s'.controlRuns == s.controlRuns
    requires s'.baseline == s.baseline && s'.baselineRuns == s.baselineRuns
    requires s'.held == s.held - HoldUnit(s.tasks[i]) + HoldUnit(s'.tasks[i])
    requires s'.held <= s.held || s'.held <= env.concurrency
    requires !s.tasks[i].phase.InControl? && !s.tasks[i].phase.InBaseline? && !s.tasks[i].phase.Finished?
    requires !s'.tasks[i].phase.InControl? && !s'.tasks[i].phase.InBaseline?
    ensures Inv(env, s')
  {
    SlotsFrame(env, s, s', i);
    OncesFrame(env, s, s', i);
    FramedInv(env, s, s', i);
  }

  lemma MoveSlotInv(env: Env, s: State, i: nat)
    requires Inv(env, s) && i < |s.tasks| && MoveSlot(env, s, i).Some?
    ensures Inv(env, MoveSlot(env, s, i).value)
  {
    if s.tasks[i].phase.Waiting? {
      AcquireTask(env, s, i);
    } else {
      ReleaseTask(env, s, i);
    }
    SlotStep(env, s, MoveSlot(env, s, i).value, i);
  }

  /** What a step at a Once leaves alone, and that nothing is published there. */
  ghost predicate AtOnce(env: Env, s: State, s': State, i: nat)
    requires Shaped(env, s) && Shaped(env, s') && i < |s.tasks|
  {
    && s' == s.(tasks := s.tasks[i := s'.tasks[i]], control := s'.control, controlRuns := s'.controlRuns,
                baseline := s'.baseline, baselineRuns := s'.baselineRuns)
    && Forward(s.control, s'.control) && Forward(s.baseline, s'.baseline)
    && 2 < Rank(s.tasks[i].phase) < 12 && 2 < Rank(s'.tasks[i].phase) < 12
    && RecordOk(env.programs[i], s'.tasks[i], s'.control, s'.baseline)
    && OncesOk(env, s')
  }

  lemma MoveControl(env: Env, s: State, i: nat)
    requires Shaped(env, s) && i < |s.tasks| && MoveOnce(env, s, i).Some? && OncesOk(env, s)
    requires RecordOk(env.programs[i], s.tasks[i], s.control, s.baseline)
    requires s.tasks[i].phase.AtControl? || s.tasks[i].phase.InControl?
    ensures var s' := MoveOnce(env, s, i).value; Shaped(env, s') && AtOnce(env, s, s', i)
  {
  }

  lemma MoveBaseline(env: Env, s: State, i: nat)
    requires Shaped(env, s) && i < |s.tasks| && MoveOnce(env, s, i).Some? && OncesOk(env, s)
    requires RecordOk(env.programs[i], s.tasks[i], s.control, s.baseline)
    requires s.tasks[i].phase.AtBaseline? || s.tasks[i].phase.InBaseline?
    ensures var s' := MoveOnce(env, s, i).value; Shaped(env, s') && AtOnce(env, s, s', i)
  {
  }

  lemma AtOnceInv(env: Env, s: State, s': State, i: nat)
    requires Inv(env, s) && Shaped(env, s') && i < |s.tasks| && AtOnce(env, s, s', i)
    ensures Inv(env, s')
  {
    assert TaskOk(env, s, i);
    SlotsFrame(env, s, s', i);
    assert TaskOk(env, s', i);
    assert Framed(env, s, s', i);
    FramedInv(env, s, s', i);
  }

  lemma MoveOnceInv(env: Env, s: State, i: nat)
    requires Inv(env, s) && i < |s.tasks| && MoveOnce(env, s, i).Some?
    ensures Inv(env, MoveOnce(env, s, i).value)
  {
    assert TaskOk(env, s, i);
    if s.tasks[i].phase.AtControl? || s.tasks[i].phase.InControl? {
      MoveControl(env, s, i);
    } else {
      MoveBaseline(env, s, i);
    }
    AtOnceInv(env, s, MoveOnce(env, s, i).value, i);
  }

  lemma PublishTask(env: Env, s: State, i: nat)
    requires Shaped(env, s) && i < |s.tasks| && TaskOk(env, s, i) && ChecksOk(env, s) && Publish(env, s, i).Some?
    ensures var s' := Publish(env, s, i).value; Shaped(env, s') && Framed(env, s, s', i) && TaskOk(env, s', i)
  {
  }

  lemma PublishInv(env: Env, s: State, i: nat)
    requires Inv(env, s) && i < |s.tasks| && Publish(env, s, i).Some?
    ensures Inv(env, Publish(env, s, i).value)
  {
    var s' := Publish(env, s, i).value;
    PublishTask(env, s, i);
    SlotStep(env, s, s', i);
  }

  lemma ActInv(env: Env, s: State, i: nat)
    requires Inv(env, s) && i < |s.tasks| && ActOn(env, s, i).Some?
    ensures Inv(env, ActOn(env, s, i).value)
  {
    if Move(env.programs[i], s.tasks[i], s.control, s.baseline).Some? {
      MoveInv(env, s, i);
    } else if MoveSlot(env, s, i).Some? {
      MoveSlotInv(env, s, i);
    } else if MoveOnce(env, s, i).Some? {
      MoveOnceInv(env, s, i);
    } else {
      PublishInv(env, s, i);
    }
  }

  lemma VerifyInv(env: Env, s: State, i: nat)
    requires Inv(env, s) && i < |s.tasks| && Verify(env, s, i).Some?
    ensures Inv(env, Verify(env, s, i).value)
  {
    var s' := Verify(env, s, i).value;
    assert TaskOk(env, s, i);
    SumUpdate(HoldUnit, s.tasks, i, s'.tasks[i]);
    forall j | 0 <= j < |s.tasks| ensures TaskOk(env, s', j) {
      assert TaskOk(env, s, j);
    }
  }

  lemma LaunchInv(env: Env, s: State)
    requires Inv(env, s) && Next(env, s, Launch).Some?
    ensures Inv(env, Next(env, s, Launch).value)
  {
    var s' := Next(env, s, Launch).value;
    assert TaskOk(env, s, s.launched);
    SumUpdate(HoldUnit, s.tasks, s.launched, s'.tasks[s.launched]);
    forall j | 0 <= j < |s.tasks| ensures TaskOk(env, s', j) {
      assert TaskOk(env, s, j);
    }
  }

  lemma ReturnInv(env: Env, s: State)
    requires Inv(env, s) && Next(env, s, Return).Some?
    ensures Inv(env, Next(env, s, Return).value)
  {
    var s' := Next(env, s, Return).value;
    forall j | 0 <= j < |s.tasks| ensures TaskOk(env, s', j) {
      assert TaskOk(env, s, j);
    }
    var control, baseline := ControlValue(s.control), BaselineValue(s.baseline);
    forall j | 0 <= j < |s.tasks|
      ensures s.slots[j] == SequentialSlots(env, control, baseline)[j]
      ensures s.dohDown[j] == SequentialDohDown(env, control, baseline)[j]
    {
      assert TaskOk(env, s, j);
    }
    assert s.slots == SequentialSlots(env, control, baseline);
    assert s.dohDown == SequentialDohDown(env, control, baseline);
  }

  lemma CheckStepInv(env: Env, s: State, step: Step)
    requires Inv(env, s) && (step.InterceptDone? || step.LocalDone? || step.CloseDone?) && Next(env, s, step).Some?
    ensures Inv(env, Next(env, s, step).value)
  {
    var s' := Next(env, s, step).value;
    forall j | 0 <= j < |s.tasks| ensures TaskOk(env, s', j) {
      assert TaskOk(env, s, j);
    }
  }

  /** Every step keeps the invariant. */
  lemma InvNext(env: Env, s: State, step: Step)
    requires Inv(env, s) && Next(env, s, step).Some?
    ensures Inv(env, Next(env, s, step).value)
  {
    match step {
      case Launch => LaunchInv(env, s);
      case Act(i) => ActInv(env, s, i);
      case Verified(i) => VerifyInv(env, s, i);
      case Return => ReturnInv(env, s);
      case _ => CheckStepInv(env, s, step);
    }
  }
}
