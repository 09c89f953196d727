// The scheduler running the real pipeline: what a finished run reports.
module RunTheorems {
  import opened Base
  import opened Model
  import opened Pipeline
  import opened Scheduler
  import SchedulerTheorems
  import DnsCheck
  import TlsCheck
  import Speed
  import LocalNet

  /** checkTarget after the resolvers answered, and decide, as the scheduler interleaves them. */
  function ProgramFrom(cfg: Config, net: Network, start: Run): Program
    requires cfg.Filled()
  {
    Program(
      start,
      NeedsControl(start),
      c => AfterControl(start, c),
      if NeedsVerify(start) then AfterVerify(cfg, net, start).verify else None,
      st => AfterHttp(cfg, net, AfterTcp(cfg, net, st)),
      st => NeedsSpeed(cfg, st),
      (st, b) => if Working(st).Some? then AfterSpeed(net, st, b) else st,
      (st: Run, v) => AfterOutage(net, st.(verify := v)),
      (st: Run) => st.analysis.dohUnavailable,
      (st, l, x) => DecideRun(cfg, st, l, x))
  }

  function ProgramOf(cfg: Config, t: Target, net: Network): Program
    requires cfg.Filled()
  {
    ProgramFrom(cfg, net, AfterDns(cfg, t, net))
  }

  lemma TcpCommutes(cfg: Config, net: Network, st: Run, v: Option<TlsCheck.Handshake>)
    requires cfg.Filled()
    ensures AfterTcp(cfg, net, st.(verify := v)) == AfterTcp(cfg, net, st).(verify := v)
  {
    assert Probed(cfg, st.(verify := v)) == Probed(cfg, st);
  }

  lemma HttpCommutes(cfg: Config, net: Network, st: Run, v: Option<TlsCheck.Handshake>)
    ensures AfterHttp(cfg, net, st.(verify := v)) == AfterHttp(cfg, net, st).(verify := v)
  {
  }

  lemma PathCommutes(cfg: Config, net: Network, st: Run, v: Option<TlsCheck.Handshake>, baseline: Speed.Measurement)
    ensures PathStage(cfg, net, st.(verify := v), baseline) == PathStage(cfg, net, st, baseline).(verify := v)
  {
    HttpCommutes(cfg, net, st, v);
    var done := AfterHttp(cfg, net, st);
    assert NeedsSpeed(cfg, done.(verify := v)) == NeedsSpeed(cfg, done);
  }

  lemma ProgramStarts(cfg: Config, net: Network, start: Run, control: DnsCheck.Lookups)
    requires cfg.Filled()
    ensures var p := ProgramFrom(cfg, net, start);
      && p.start == start && p.needsControl == NeedsControl(start)
      && p.withControl(control) == AfterControl(start, control)
  {
  }

  lemma ProgramConnects(cfg: Config, net: Network, start: Run, st: Run)
    requires cfg.Filled()
    ensures ProgramFrom(cfg, net, start).connect(st) == AfterHttp(cfg, net, AfterTcp(cfg, net, st))
  {
  }

  lemma ProgramSpeeds(cfg: Config, net: Network, start: Run, st: Run, baseline: Speed.Measurement)
    requires cfg.Filled()
    ensures var p := ProgramFrom(cfg, net, start);
      && p.needsSpeed(st) == NeedsSpeed(cfg, st)
      && (NeedsSpeed(cfg, st) ==> p.withSpeed(st, baseline) == AfterSpeed(net, st, baseline))
  {
  }

  lemma ResolvedIsControlStage(p: Program, start: Run, control: DnsCheck.Lookups)
    requires p.start == start && p.needsControl == NeedsControl(start)
    requires p.withControl(control) == AfterControl(start, control)
    ensures Resolved(p, control) == ControlStage(start, control)
  {
  }

  lemma MeasuredIsPathStage(p: Program, cfg: Config, net: Network, st: Run, control: DnsCheck.Lookups,
                            baseline: Speed.Measurement)
    requires p.connect(Resolved(p, control)) == AfterHttp(cfg, net, st)
    requires var done := AfterHttp(cfg, net, st);
      && p.needsSpeed(done) == NeedsSpeed(cfg, done)
      && (NeedsSpeed(cfg, done) ==> p.withSpeed(done, baseline) == AfterSpeed(net, done, baseline))
    ensures Measured(p, control, baseline) == PathStage(cfg, net, st, baseline)
  {
  }

  lemma ProgramResolves(cfg: Config, net: Network, start: Run, control: DnsCheck.Lookups)
    requires cfg.Filled()
    ensures Resolved(ProgramFrom(cfg, net, start), control) == ControlStage(start, control)
  {
    ProgramStarts(cfg, net, start, control);
    ResolvedIsControlStage(ProgramFrom(cfg, net, start), start, control);
  }

  lemma ProgramMeasuresFrom(cfg: Config, net: Network, start: Run, st: Run, control: DnsCheck.Lookups,
                            baseline: Speed.Measurement)
    requires cfg.Filled() && Resolved(ProgramFrom(cfg, net, start), control) == st
    ensures Measured(ProgramFrom(cfg, net, start), control, baseline)
      == PathStage(cfg, net, AfterTcp(cfg, net, st), baseline)
  {
    var dialed := AfterTcp(cfg, net, st);
    ProgramConnects(cfg, net, start, st);
    ProgramSpeeds(cfg, net, start, AfterHttp(cfg, net, dialed), baseline);
    MeasuredIsPathStage(ProgramFrom(cfg, net, start), cfg, net, dialed, control, baseline);
  }

  lemma ProgramMeasures(cfg: Config, net: Network, start: Run, control: DnsCheck.Lookups, baseline: Speed.Measurement)
    requires cfg.Filled()
    ensures Measured(ProgramFrom(cfg, net, start), control, baseline)
      == PathStage(cfg, net, AfterTcp(cfg, net, ControlStage(start, control)), baseline)
  {
    ProgramResolves(cfg, net, start, control);
    ProgramMeasuresFrom(cfg, net, start, ControlStage(start, control), control, baseline);
  }

  lemma ProgramSuspects(cfg: Config, net: Network, start: Run)
    requires cfg.Filled()
    ensures ProgramFrom(cfg, net, start).suspect
      == if NeedsVerify(start) then AfterVerify(cfg, net, start).verify else None
  {
  }

  /** The suspect check reads nothing the control lookup writes. */
  lemma VerifyCommutes(cfg: Config, net: Network, start: Run, control: DnsCheck.Lookups)
    requires start.verify.None?
    ensures var st := ControlStage(start, control);
      VerifyStage(cfg, net, st)
        == st.(verify := if NeedsVerify(start) then AfterVerify(cfg, net, start).verify else None)
  {
  }

  lemma SuspectIsVerifyStage(cfg: Config, net: Network, start: Run, control: DnsCheck.Lookups)
    requires cfg.Filled() && start.verify.None?
    ensures var st := ControlStage(start, control);
      VerifyStage(cfg, net, st) == st.(verify := ProgramFrom(cfg, net, start).suspect)
  {
    VerifyCommutes(cfg, net, start, control);
    ProgramSuspects(cfg, net, start);
  }

  /** Filling the suspect field last gives the same record as filling it first. */
  lemma ProgramIsCheckTarget(cfg: Config, net: Network, start: Run, control: DnsCheck.Lookups,
                             baseline: Speed.Measurement)
    requires cfg.Filled() && start.verify.None?
    ensures Outcome(ProgramFrom(cfg, net, start), control, baseline) == RunFrom(cfg, net, start, control, baseline)
  {
    var st, v := ControlStage(start, control), ProgramFrom(cfg, net, start).suspect;
    ProgramMeasures(cfg, net, start, control, baseline);
    SuspectIsVerifyStage(cfg, net, start, control);
    TcpCommutes(cfg, net, st, v);
    PathCommutes(cfg, net, AfterTcp(cfg, net, st), v, baseline);
  }

  lemma DohFlagStays(cfg: Config, net: Network, start: Run, control: DnsCheck.Lookups, baseline: Speed.Measurement)
    requires cfg.Filled()
    ensures RunFrom(cfg, net, start, control, baseline).analysis.dohUnavailable == start.analysis.dohUnavailable
  {
  }

  function ProbeNames(probes: seq<LocalNet.Probe>, ok: bool): seq<string> {
    if probes == [] then []
    else (if probes[0].ok == ok then [probes[0].addr] else []) + ProbeNames(probes[1..], ok)
  }

  /** The run-wide part of the report, with the DoH flag of every target folded in. */
  function Summarize(proxy: bool, local: Option<LocalNet.Result>, intercept: Option<bool>, dohDown: seq<bool>)
    : LocalSummary
  {
    var doh := dohDown != [] && forall down :: down in dohDown ==> down;
    match local
    case None => LocalSummary(true, None, true, [], [], intercept == Some(true), doh, proxy)
    case Some(l) =>
      LocalSummary(l.Down().None?, l.Down(), l.defaultRoute,
                   ProbeNames(l.baseline, true), ProbeNames(l.baseline, false),
                   intercept == Some(true), doh, proxy)
  }

  /** What one run of the tool is given. */
  datatype Setup = Setup(
    cfg: Config,
    targets: seq<Target>,
    nets: seq<Network>,
    probing: bool,
    hijacked: bool,
    local: Option<LocalNet.Result>,
    control: DnsCheck.Lookups,
    baseline: Speed.Measurement
  ) {
    predicate Valid() {
      cfg.Filled() && cfg.concurrency >= 1 && |nets| == |targets|
    }
  }

  function EnvOf(r: Setup): Env
    requires r.Valid()
  {
    Env(r.cfg.concurrency,
        seq(|r.targets|, i requires 0 <= i < |r.targets| => ProgramOf(r.cfg, r.targets[i], r.nets[i])),
        r.probing, r.hijacked, r.local, _ => r.control, _ => r.baseline,
        (l, x, d) => Summarize(r.cfg.proxyInUse, l, x, d))
  }

  /** A setup with its defaults filled is one the scheduler can run. */
  lemma FilledSetupIsValid(r: Setup)
    requires |r.nets| == |r.targets|
    ensures r.(cfg := FillDefaults(r.cfg)).Valid()
  {
  }

  function TargetResult(r: Setup, i: nat): TargetReport
    requires r.Valid() && i < |r.targets|
  {
    DecideRun(r.cfg, RunOf(r.cfg, r.targets[i], r.nets[i], r.control, r.baseline),
              r.local, if r.probing then Some(r.hijacked) else None)
  }

  predicate DohDown(r: Setup, i: nat)
    requires r.Valid() && i < |r.targets|
  {
    DnsCheck.AnalysisOf(r.cfg.tables, r.nets[i].lookups).dohUnavailable
  }

  lemma EnvChecks(r: Setup)
    requires r.Valid()
    ensures EnvOf(r).local == r.local
    ensures FinalIntercept(EnvOf(r)) == if r.probing then Some(r.hijacked) else None
  {
  }

  lemma EnvFacts(r: Setup, i: nat)
    requires r.Valid() && i < |r.targets|
    ensures EnvOf(r).programs[i] == ProgramFrom(r.cfg, r.nets[i], AfterDns(r.cfg, r.targets[i], r.nets[i]))
  {
  }

  lemma OutcomeOf(r: Setup, i: nat)
    requires r.Valid() && i < |r.targets|
    ensures Outcome(EnvOf(r).programs[i], r.control, r.baseline)
      == RunOf(r.cfg, r.targets[i], r.nets[i], r.control, r.baseline)
  {
    EnvFacts(r, i);
    ProgramIsCheckTarget(r.cfg, r.nets[i], AfterDns(r.cfg, r.targets[i], r.nets[i]), r.control, r.baseline);
  }

  lemma ProgramDecides(cfg: Config, net: Network, start: Run, st: Run, l: Option<LocalNet.Result>, x: Option<bool>)
    requires cfg.Filled()
    ensures ProgramFrom(cfg, net, start).decide(st, l, x) == DecideRun(cfg, st, l, x)
    ensures ProgramFrom(cfg, net, start).dohDown(st) == st.analysis.dohUnavailable
  {
  }

  lemma ProgramDecidesAs(r: Setup, i: nat, st: Run, l: Option<LocalNet.Result>, x: Option<bool>)
    requires r.Valid() && i < |r.targets|
    ensures EnvOf(r).programs[i].decide(st, l, x) == DecideRun(r.cfg, st, l, x)
    ensures EnvOf(r).programs[i].dohDown(st) == st.analysis.dohUnavailable
  {
    EnvFacts(r, i);
    ProgramDecides(r.cfg, r.nets[i], AfterDns(r.cfg, r.targets[i], r.nets[i]), st, l, x);
  }

  lemma DecidesTarget(r: Setup, i: nat, x: Option<bool>)
    requires r.Valid() && i < |r.targets| && x == if r.probing then Some(r.hijacked) else None
    ensures EnvOf(r).programs[i].decide(RunOf(r.cfg, r.targets[i], r.nets[i], r.control, r.baseline), r.local, x)
      == TargetResult(r, i)
  {
    ProgramDecidesAs(r, i, RunOf(r.cfg, r.targets[i], r.nets[i], r.control, r.baseline), r.local, x);
  }

  lemma DohFlagOf(r: Setup, i: nat)
    requires r.Valid() && i < |r.targets|
    ensures RunOf(r.cfg, r.targets[i], r.nets[i], r.control, r.baseline).analysis.dohUnavailable == DohDown(r, i)
  {
    DohFlagStays(r.cfg, r.nets[i], AfterDns(r.cfg, r.targets[i], r.nets[i]), r.control, r.baseline);
  }

  lemma FlagsTarget(r: Setup, i: nat)
    requires r.Valid() && i < |r.targets|
    ensures EnvOf(r).programs[i].dohDown(RunOf(r.cfg, r.targets[i], r.nets[i], r.control, r.baseline)) == DohDown(r, i)
  {
    ProgramDecidesAs(r, i, RunOf(r.cfg, r.targets[i], r.nets[i], r.control, r.baseline), None, None);
    DohFlagOf(r, i);
  }

  /** What a target's program comes to, in the terms of the sequential report. */
  lemma OutcomeDecides(r: Setup, i: nat)
    requires r.Valid() && i < |r.targets|
    ensures var env := EnvOf(r);
      env.programs[i].decide(Outcome(env.programs[i], r.control, r.baseline), env.local, FinalIntercept(env))
        == TargetResult(r, i)
  {
    OutcomeOf(r, i);
    EnvChecks(r);
    DecidesTarget(r, i, FinalIntercept(EnvOf(r)));
  }

  lemma OutcomeFlags(r: Setup, i: nat)
    requires r.Valid() && i < |r.targets|
    ensures var p := EnvOf(r).programs[i]; p.dohDown(Outcome(p, r.control, r.baseline)) == DohDown(r, i)
  {
    OutcomeOf(r, i);
    FlagsTarget(r, i);
  }

  lemma SlotOf(r: Setup, i: nat)
    requires r.Valid() && i < |r.targets|
    ensures SequentialSlots(EnvOf(r), r.control, r.baseline)[i] == Some(TargetResult(r, i))
  {
    OutcomeDecides(r, i);
  }

  lemma FlagOf(r: Setup, i: nat)
    requires r.Valid() && i < |r.targets|
    ensures SequentialDohDown(EnvOf(r), r.control, r.baseline)[i] == DohDown(r, i)
  {
    OutcomeFlags(r, i);
  }

  /** What the sequential report of a setup says. */
  lemma SequentialReportOf(r: Setup)
    requires r.Valid()
    ensures var slots, flags :=
        SequentialSlots(EnvOf(r), r.control, r.baseline), SequentialDohDown(EnvOf(r), r.control, r.baseline);
      && |slots| == |flags| == |r.targets|
      && forall i :: 0 <= i < |r.targets| ==> slots[i] == Some(TargetResult(r, i)) && flags[i] == DohDown(r, i)
  {
    forall i | 0 <= i < |r.targets|
      ensures SequentialSlots(EnvOf(r), r.control, r.baseline)[i] == Some(TargetResult(r, i))
      ensures SequentialDohDown(EnvOf(r), r.control, r.baseline)[i] == DohDown(r, i)
    {
      SlotOf(r, i);
      FlagOf(r, i);
    }
  }

  lemma SummarizeFacts(proxy: bool, local: Option<LocalNet.Result>, intercept: Option<bool>, dohDown: seq<bool>)
    ensures var l := Summarize(proxy, local, intercept, dohDown);
      && (l.dohUnreachable <==> |dohDown| > 0 && forall i :: 0 <= i < |dohDown| ==> dohDown[i])
      && (l.dnsIntercept <==> intercept == Some(true))
      && (l.up <==> local.None? || local.value.Down().None?)
  {
    AllTrue(dohDown);
  }

  lemma FlagsMeanDown(r: Setup, flags: seq<bool>)
    requires r.Valid() && |flags| == |r.targets|
    requires forall i :: 0 <= i < |r.targets| ==> flags[i] == DohDown(r, i)
    ensures (forall i :: 0 <= i < |flags| ==> flags[i]) <==> forall i :: 0 <= i < |r.targets| ==> DohDown(r, i)
  {
    if forall i :: 0 <= i < |flags| ==> flags[i] {
      forall i | 0 <= i < |r.targets| ensures DohDown(r, i) {
        assert flags[i];
      }
    }
  }

  lemma SequentialLocal(env: Env, control: DnsCheck.Lookups, baseline: Speed.Measurement)
    ensures SequentialReport(env, control, baseline).local
      == env.summarize(env.local, FinalIntercept(env), SequentialDohDown(env, control, baseline))
  {
  }

  lemma EnvSummarizes(r: Setup, flags: seq<bool>)
    requires r.Valid()
    ensures var env := EnvOf(r);
      env.summarize(env.local, FinalIntercept(env), flags)
        == Summarize(r.cfg.proxyInUse, r.local, if r.probing then Some(r.hijacked) else None, flags)
  {
  }

  lemma SummaryMeans(r: Setup, flags: seq<bool>, l: LocalSummary)
    requires r.Valid() && |flags| == |r.targets|
    requires forall i :: 0 <= i < |r.targets| ==> flags[i] == DohDown(r, i)
    requires l == Summarize(r.cfg.proxyInUse, r.local, if r.probing then Some(r.hijacked) else None, flags)
    ensures l.dohUnreachable <==> |r.targets| > 0 && forall i :: 0 <= i < |r.targets| ==> DohDown(r, i)
    ensures l.dnsIntercept <==> r.probing && r.hijacked
    ensures l.up <==> r.local.None? || r.local.value.Down().None?
  {
    FlagsMeanDown(r, flags);
    SummarizeFacts(r.cfg.proxyInUse, r.local, if r.probing then Some(r.hijacked) else None, flags);
  }

  /** The run-wide part of the sequential report. */
  lemma LocalReportOf(r: Setup)
    requires r.Valid()
    ensures var env := EnvOf(r);
      SequentialReport(env, r.control, r.baseline).local
        == Summarize(r.cfg.proxyInUse, r.local, if r.probing then Some(r.hijacked) else None,
                     SequentialDohDown(env, r.control, r.baseline))
  {
    SequentialLocal(EnvOf(r), r.control, r.baseline);
    EnvSummarizes(r, SequentialDohDown(EnvOf(r), r.control, r.baseline));
  }

  /** Whatever the schedule, target i's slot is what diagnosing target i alone gives, and the
      DoH note is set when there are targets and no DoH resolver answered for any of them. */
  lemma RunReport(r: Setup, steps: seq<Step>, s: State)
    requires r.Valid() && SchedulerTheorems.Reaches(EnvOf(r), steps, s) && s.report.Some?
    ensures var report := s.report.value;
      && |report.targets| == |r.targets|
      && (forall i :: 0 <= i < |r.targets| ==> report.targets[i] == Some(TargetResult(r, i)))
      && (report.local.dohUnreachable <==>
            |r.targets| > 0 && forall i :: 0 <= i < |r.targets| ==> DohDown(r, i))
      && (report.local.dnsIntercept <==> r.probing && r.hijacked)
      && (report.local.up <==> r.local.None? || r.local.value.Down().None?)
  {
    SchedulerTheorems.ScheduleIndependence(EnvOf(r), steps, s, r.control, r.baseline);
    SequentialReportOf(r);
    LocalReportOf(r);
    SummaryMeans(r, SequentialDohDown(EnvOf(r), r.control, r.baseline), s.report.value.local);
  }

  /** With the defaults filled in, a run in which nothing more can happen has returned that report. */
  lemma FilledRunReports(r: Setup, steps: seq<Step>, s: State)
    requires |r.nets| == |r.targets|
    requires var f := r.(cfg := FillDefaults(r.cfg));
      SchedulerTheorems.Reaches(EnvOf(f), steps, s) && forall step :: Next(EnvOf(f), s, step).None?
    ensures s.report.Some? && |s.report.value.targets| == |r.targets|
    ensures forall i :: 0 <= i < |r.targets| ==>
      s.report.value.targets[i] == Some(TargetResult(r.(cfg := FillDefaults(r.cfg)), i))
  {
    var f := r.(cfg := FillDefaults(r.cfg));
    FilledSetupIsValid(r);
    SchedulerTheorems.StuckIsReported(EnvOf(f), steps, s);
    RunReport(f, steps, s);
  }

  lemma AllTrue(flags: seq<bool>)
    ensures (forall down :: down in flags ==> down) <==> forall i :: 0 <= i < |flags| ==> flags[i]
  {
    if i :| 0 <= i < |flags| && !flags[i] {
      assert flags[i] in flags;
    }
  }
}
