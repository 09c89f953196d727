// One run over all targets (Run in internal/probe/probe.go) as a state machine. Every
// target has a goroutine; a counting semaphore bounds how many are inside checkTarget;
// two run-wide checks publish their results behind the done channel; the control lookup
// and the speed baseline are measured lazily, at most once. Layer calls are functions
// of the environment, in progress from the step that enters a phase to the step that
// leaves it, while any other goroutine may step.
module Scheduler {
  import opened Base
  import DnsCheck
  import TlsCheck
  import Speed
  import LocalNet
  import opened Pipeline

  // ----------------------------------------------------- the environment

  /** What checkTarget and decide do for one target, call by call. */
  datatype Program = Program(
    start: Run,                                          // after layer 2
    needsControl: bool,
    withControl: DnsCheck.Lookups -> Run,
    suspect: Option<TlsCheck.Handshake>,                 // what the suspect check finds, if there is a suspect
    connect: Run -> Run,                                 // TCP, TLS and HTTP
    needsSpeed: Run -> bool,
    withSpeed: (Run, Speed.Measurement) -> Run,
    join: (Run, Option<TlsCheck.Handshake>) -> Run,      // the suspect check's field, then the status page
    dohDown: Run -> bool,
    decide: (Run, Option<LocalNet.Result>, Option<bool>) -> TargetReport
  )

  datatype LocalSummary = LocalSummary(
    up: bool,
    downReason: Option<LocalNet.DownReason>,
    defaultRoute: bool,
    reachable: seq<string>,
    unreachable: seq<string>,
    dnsIntercept: bool,
    dohUnreachable: bool,
    proxyFlag: bool
  )

  /** What a run is given, and what every layer call in it returns. */
  datatype Env = Env(
    concurrency: int,
    programs: seq<Program>,
    probing: bool,
    hijacked: bool,
    local: Option<LocalNet.Result>,
    control: nat -> DnsCheck.Lookups,                    // the control lookup, if this target runs it
    baseline: nat -> Speed.Measurement,
    summarize: (Option<LocalNet.Result>, Option<bool>, seq<bool>) -> LocalSummary
  )

  /** A sync.Once and the value its body stored; `owner` is the target that ran the body. */
  datatype Once<T> = Fresh | Running(owner: nat) | Done(owner: nat, value: T)

  // ---------------------------------------------------------- the state

  datatype Phase =
    | Unlaunched
    | Waiting       // for a semaphore slot
    | Resolving
    | AtControl     // about to call controlOnce.Do
    | InControl     // running its body
    | HasControl    // past it
    | Connecting    // TCP, TLS and HTTP
    | AtBaseline
    | InBaseline
    | HasBaseline
    | Joining       // wg.Wait for the suspect check
    | Finishing     // status page, then return
    | Releasing     // about to give the slot back
    | Parked        // on the done channel
    | Finished

  /** A target's goroutine: the record it fills, and the field the suspect check fills beside it. */
  datatype Task = Task(phase: Phase, st: Option<Run>, verifying: bool, verify: Option<TlsCheck.Handshake>)

  /** A slot that was never written holds no report. */
  datatype Report = Report(targets: seq<Option<TargetReport>>, local: LocalSummary)

  datatype State = State(
    tasks: seq<Task>,
    launched: nat,
    held: nat,
    control: Once<DnsCheck.Lookups>,
    controlRuns: nat,
    baseline: Once<Speed.Measurement>,
    baselineRuns: nat,
    interceptRunning: bool,
    intercept: Option<bool>,
    localRunning: bool,
    local: Option<LocalNet.Result>,
    done: bool,
    dohDown: seq<bool>,
    slots: seq<Option<TargetReport>>,
    writes: seq<nat>,
    report: Option<Report>
  )

  const NEW_TASK := Task(Unlaunched, None, false, None)

  function Init(env: Env): (s: State)
    ensures Shaped(env, s)
  {
    var n := |env.programs|;
    State(seq(n, _ => NEW_TASK), 0, 0, Fresh, 0, Fresh, 0,
          env.probing, None, env.local.Some?, None, false,
          seq(n, _ => false), seq(n, _ => None), seq(n, _ => 0), None)
  }

  predicate Shaped(env: Env, s: State) {
    |s.tasks| == |s.dohDown| == |s.slots| == |s.writes| == |env.programs|
  }

  // ------------------------------------------------------------- steps

  datatype Step =
    | Launch                // the loop in Run starts the next goroutine
    | Act(target: nat)      // the target's goroutine leaves its phase
    | Verified(target: nat) // the target's suspect check returns
    | InterceptDone
    | LocalDone
    | CloseDone
    | Return

  function Put(s: State, i: nat, t: Task): State
    requires i < |s.tasks|
  {
    s.(tasks := s.tasks[i := t])
  }

  /** Layer 2 is over: the suspect check starts when there is a suspect. */
  function Connect(p: Program, st: Run): Task {
    Task(Connecting, Some(st), p.suspect.Some?, None)
  }

  /** The phases a goroutine leaves without touching anything shared. Guards on None stand
      for the nil dereferences no reachable state runs into. */
  function Move(p: Program, t: Task, c: Once<DnsCheck.Lookups>, b: Once<Speed.Measurement>): Option<Task> {
    match t.phase
    case Resolving => Some(if p.needsControl then Task(AtControl, Some(p.start), false, None) else Connect(p, p.start))
    case AtControl => if c.Done? then Some(t.(phase := HasControl)) else None
    case HasControl => if c.Done? then Some(Connect(p, p.withControl(c.value))) else None
    case Connecting =>
      if t.st.None? then None
      else
        var st := p.connect(t.st.value);
        Some(t.(phase := if p.needsSpeed(st) then AtBaseline else Joining, st := Some(st)))
    case AtBaseline => if b.Done? then Some(t.(phase := HasBaseline)) else None
    case HasBaseline =>
      if t.st.None? || !b.Done? then None
      else Some(t.(phase := Joining, st := Some(p.withSpeed(t.st.value, b.value))))
    case Joining => if t.verifying then None else Some(t.(phase := Finishing))
    case _ => None
  }

  /** Sending to and receiving from the semaphore channel. */
  function MoveSlot(env: Env, s: State, i: nat): Option<State>
    requires i < |s.tasks|
  {
    var t := s.tasks[i];
    if t.phase.Waiting? && s.held < env.concurrency then
      Some(Put(s, i, t.(phase := Resolving)).(held := s.held + 1))
    else if t.phase.Releasing? && s.held > 0 then Some(Put(s, i, t.(phase := Parked)).(held := s.held - 1))
    else None
  }

  /** Entering a Once nobody has entered, and leaving its body. */
  function MoveOnce(env: Env, s: State, i: nat): Option<State>
    requires i < |s.tasks|
  {
    var t := s.tasks[i];
    match t.phase
    case AtControl =>
      if s.control.Fresh? then
        Some(Put(s, i, t.(phase := InControl)).(control := Running(i), controlRuns := s.controlRuns + 1))
      else None
    case InControl => Some(Put(s, i, t.(phase := HasControl)).(control := Done(i, env.control(i))))
    case AtBaseline =>
      if s.baseline.Fresh? then
        Some(Put(s, i, t.(phase := InBaseline)).(baseline := Running(i), baselineRuns := s.baselineRuns + 1))
      else None
    case InBaseline => Some(Put(s, i, t.(phase := HasBaseline)).(baseline := Done(i, env.baseline(i))))
    case _ => None
  }

  /** Writing dohDown[i] after checkTarget, and the report slot after the done channel. */
  function Publish(env: Env, s: State, i: nat): Option<State>
    requires Shaped(env, s) && i < |s.tasks|
  {
    var p, t := env.programs[i], s.tasks[i];
    if t.st.None? then None
    else if t.phase.Finishing? then
      var st := p.join(t.st.value, t.verify);
      Some(Put(s, i, t.(phase := Releasing, st := Some(st))).(dohDown := s.dohDown[i := p.dohDown(st)]))
    else if t.phase.Parked? && s.done then
      var tr := p.decide(t.st.value, s.local, s.intercept);
      Some(Put(s, i, t.(phase := Finished)).(slots := s.slots[i := Some(tr)], writes := s.writes[i := s.writes[i] + 1]))
    else None
  }

  /** What target `i`'s goroutine does next; at most one of the four kinds applies. */
  function ActOn(env: Env, s: State, i: nat): (r: Option<State>)
    requires Shaped(env, s) && i < |s.tasks|
    ensures r.Some? ==> Shaped(env, r.value)
  {
    var move := Move(env.programs[i], s.tasks[i], s.control, s.baseline);
    if move.Some? then Some(Put(s, i, move.value))
    else if MoveSlot(env, s, i).Some? then MoveSlot(env, s, i)
    else if MoveOnce(env, s, i).Some? then MoveOnce(env, s, i)
    else Publish(env, s, i)
  }

  function Verify(env: Env, s: State, i: nat): (r: Option<State>)
    requires Shaped(env, s) && i < |s.tasks|
    ensures r.Some? ==> Shaped(env, r.value)
  {
    var t := s.tasks[i];
    if t.verifying then Some(Put(s, i, t.(verify := env.programs[i].suspect, verifying := false))) else None
  }

  predicate AllFinished(s: State) {
    forall i :: 0 <= i < |s.tasks| ==> s.tasks[i].phase.Finished?
  }

  /** The state after a step, or None when the step is not enabled. */
  function Next(env: Env, s: State, step: Step): (r: Option<State>)
    requires Shaped(env, s)
    ensures r.Some? ==> Shaped(env, r.value)
  {
    match step
    case Launch =>
      if s.launched < |s.tasks| then
        Some(Put(s, s.launched, NEW_TASK.(phase := Waiting)).(launched := s.launched + 1))
      else None
    case Act(i) => if i < |s.tasks| then ActOn(env, s, i) else None
    case Verified(i) => if i < |s.tasks| then Verify(env, s, i) else None
    case InterceptDone =>
      if s.interceptRunning then Some(s.(interceptRunning := false, intercept := Some(env.hijacked))) else None
    case LocalDone => if s.localRunning then Some(s.(localRunning := false, local := env.local)) else None
    case CloseDone => if !s.done && !s.interceptRunning && !s.localRunning then Some(s.(done := true)) else None
    case Return =>
      if s.report.None? && s.launched == |s.tasks| && AllFinished(s) && s.done then
        Some(s.(report := Some(Report(s.slots, env.summarize(s.local, s.intercept, s.dohDown)))))
      else None
  }

  /** The state after a run of steps, or None when one of them was not enabled. */
  ghost function Exec(env: Env, s: State, steps: seq<Step>): (r: Option<State>)
    requires Shaped(env, s)
    ensures r.Some? ==> Shaped(env, r.value)
    decreases |steps|
  {
    if steps == [] then Some(s)
    else
      match Next(env, s, steps[0])
      case None => None
      case Some(s') => Exec(env, s', steps[1..])
  }

  // ---------------------------------------------------- the specification

  const NO_LOOKUPS := DnsCheck.Lookups(DnsCheck.NO_ANSWER, [], [])
  const NO_MEASUREMENT := Speed.Measurement(0, 0, 0, 0, false)

  function ControlValue(c: Once<DnsCheck.Lookups>): DnsCheck.Lookups {
    if c.Done? then c.value else NO_LOOKUPS
  }

  function BaselineValue(b: Once<Speed.Measurement>): Speed.Measurement {
    if b.Done? then b.value else NO_MEASUREMENT
  }

  function FinalIntercept(env: Env): Option<bool> {
    if env.probing then Some(env.hijacked) else None
  }

  /** One target's layers run on their own, with given run-wide values. */
  function Resolved(p: Program, control: DnsCheck.Lookups): Run {
    if p.needsControl then p.withControl(control) else p.start
  }

  function Measured(p: Program, control: DnsCheck.Lookups, baseline: Speed.Measurement): Run {
    var st := p.connect(Resolved(p, control));
    if p.needsSpeed(st) then p.withSpeed(st, baseline) else st
  }

  function Outcome(p: Program, control: DnsCheck.Lookups, baseline: Speed.Measurement): Run {
    p.join(Measured(p, control, baseline), p.suspect)
  }

  function SequentialSlots(env: Env, control: DnsCheck.Lookups, baseline: Speed.Measurement)
    : (r: seq<Option<TargetReport>>)
    ensures |r| == |env.programs|
    ensures forall i :: 0 <= i < |r| ==> r[i] == Some(
      env.programs[i].decide(Outcome(env.programs[i], control, baseline), env.local, FinalIntercept(env)))
  {
    seq(|env.programs|, i requires 0 <= i < |env.programs| =>
      Some(env.programs[i].decide(Outcome(env.programs[i], control, baseline), env.local, FinalIntercept(env))))
  }

  function SequentialDohDown(env: Env, control: DnsCheck.Lookups, baseline: Speed.Measurement): (r: seq<bool>)
    ensures |r| == |env.programs|
    ensures forall i :: 0 <= i < |r| ==> r[i] == env.programs[i].dohDown(Outcome(env.programs[i], control, baseline))
  {
    seq(|env.programs|, i requires 0 <= i < |env.programs| =>
      env.programs[i].dohDown(Outcome(env.programs[i], control, baseline)))
  }

  /** The report without any concurrency: targets in input order, one after the other. */
  function SequentialReport(env: Env, control: DnsCheck.Lookups, baseline: Speed.Measurement): Report {
    Report(SequentialSlots(env, control, baseline),
           env.summarize(env.local, FinalIntercept(env), SequentialDohDown(env, control, baseline)))
  }
}
