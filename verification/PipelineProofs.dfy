// What a verdict guarantees end to end: over every network, every set of resolver
// answers and every configuration, for the inputs the pipeline can actually build.
module PipelineProofs {
  import opened Base
  import opened Model
  import opened Pipeline
  import V = VerdictEngine
  import VerdictProofs
  import DnsCheck
  import DnsCheckProofs
  import TcpCheck
  import TlsCheck
  import HttpCheck
  import Speed
  import LocalNet

  /** How the layers of a finished run depend on one another. */
  ghost predicate WellStaged(cfg: Config, net: Network, control: DnsCheck.Lookups, baseline: Speed.Measurement, st: Run)
    requires cfg.Filled()
  {
    var a := DnsCheck.AnalysisOf(cfg.tables, net.lookups);
    var needsControl := a.unresolvable && a.allPlainTimeout;
    && st.analysis == a.(dropped := needsControl && ControlAnswers(control))
    && (st.control == if needsControl then Some(control) else None)
    && st.tcp == TcpCheck.ProbesOf(net.dial, Probed(cfg, st))
    && (st.tls.Some? <==> Working(st).Some?)
    && (st.tls.Some? ==>
          st.tls.value == TlsCheck.CheckOf(net.peer, Working(st).value.addr, st.target.host, cfg.neutralSni))
    && (st.http.Some? <==> st.tls.Some? && (st.tls.value.own.outcome.OK? || st.tls.value.own.outcome.CertInvalid?))
    && (st.http.Some? ==>
          st.http.value
            == HttpCheck.ResultOf(net.exchange(Working(st).value.addr, st.tls.value.own.outcome.CertInvalid?)))
    && (st.speed.Some? <==> cfg.speed && st.http.Some? && st.http.value.class_.OK?)
    && (st.speed.Some? ==> st.speed.value == net.speed(Working(st).value.addr, baseline))
    && (st.verify.Some? <==> a.suspects != [])
    && (st.verify.Some? ==>
          st.verify.value
            == TlsCheck.HandshakeOf(net.peer, cfg.AddrPort(a.suspects[0]), st.target.host, st.target.host != ""))
    && (st.outage == if st.target.statusPage != "" && PathCleanButFailing(st) then Some(net.outage) else None)
  }

  /** Layers 4 to 6 fill only their own fields, on the address that accepted a connection. */
  lemma PathStageFacts(cfg: Config, net: Network, st: Run, baseline: Speed.Measurement)
    requires NoPath(st)
    ensures var r := PathStage(cfg, net, st, baseline);
      && r == st.(tls := r.tls, http := r.http, speed := r.speed)
      && (r.tls == match Working(st)
          case None => None
          case Some(w) => Some(TlsCheck.CheckOf(net.peer, w.addr, st.target.host, cfg.neutralSni)))
      && (r.http.Some? <==> r.tls.Some? && (r.tls.value.own.outcome.OK? || r.tls.value.own.outcome.CertInvalid?))
      && (r.http.Some? ==>
            r.http.value
              == HttpCheck.ResultOf(net.exchange(Working(st).value.addr, r.tls.value.own.outcome.CertInvalid?)))
      && (r.speed.Some? <==> cfg.speed && r.http.Some? && r.http.value.class_.OK?)
      && (r.speed.Some? ==> r.speed.value == net.speed(Working(st).value.addr, baseline))
  {
  }

  /** Layers 2 and 3 and the suspect check. */
  lemma EarlyStageFacts(cfg: Config, t: Target, net: Network, control: DnsCheck.Lookups)
    requires cfg.Filled()
    ensures var st := AfterTcp(cfg, net, VerifyStage(cfg, net, ControlStage(AfterDns(cfg, t, net), control)));
      var a := DnsCheck.AnalysisOf(cfg.tables, net.lookups);
      var needsControl := a.unresolvable && a.allPlainTimeout;
      && st == Run(t, net.lookups, a.(dropped := needsControl && ControlAnswers(control)),
                   if needsControl then Some(control) else None,
                   TcpCheck.ProbesOf(net.dial, Probed(cfg, st)), None, st.verify, None, None, None)
      && (st.verify == if a.suspects == [] then None else
            Some(TlsCheck.HandshakeOf(net.peer, cfg.AddrPort(a.suspects[0]), t.host, t.host != "")))
  {
    var s1 := ControlStage(AfterDns(cfg, t, net), control);
    var s2 := VerifyStage(cfg, net, s1);
    assert Probed(cfg, AfterTcp(cfg, net, s2)) == Probed(cfg, s2);
  }

  lemma RunIsWellStaged(cfg: Config, t: Target, net: Network, control: DnsCheck.Lookups, baseline: Speed.Measurement)
    requires cfg.Filled()
    ensures var st := RunOf(cfg, t, net, control, baseline);
      st.target == t && WellStaged(cfg, net, control, baseline, st)
  {
    EarlyStageFacts(cfg, t, net, control);
    var early := AfterTcp(cfg, net, VerifyStage(cfg, net, ControlStage(AfterDns(cfg, t, net), control)));
    PathStageFacts(cfg, net, early, baseline);
    var done := PathStage(cfg, net, early, baseline);
    var st := AfterOutage(net, done);
    assert st == done.(outage := st.outage);
    assert Probed(cfg, st) == Probed(cfg, early) && Working(st) == Working(early);
    assert PathCleanButFailing(st) == PathCleanButFailing(done);
  }

  /** No target ever waits for both run-wide lookups. */
  lemma NeverBothOnces(cfg: Config, t: Target, net: Network, control: DnsCheck.Lookups, baseline: Speed.Measurement)
    requires cfg.Filled()
    requires RunOf(cfg, t, net, control, baseline).control.Some?
    ensures var st := RunOf(cfg, t, net, control, baseline);
      st.speed.None? && st.tcp == [] && st.tls.None? && st.verify.None?
  {
    RunIsWellStaged(cfg, t, net, control, baseline);
    DnsCheckProofs.AnalysisShape(cfg.tables, net.lookups);
  }

  // -------------------------------------------------------- end to end

  /** Every input the pipeline builds is staged, whatever the run-wide checks found. */
  lemma InputIsStaged(cfg: Config, t: Target, net: Network, control: DnsCheck.Lookups, baseline: Speed.Measurement,
                      local: Option<LocalNet.Result>, intercept: Option<bool>)
    requires cfg.Filled()
    ensures VerdictProofs.Staged(InputOf(cfg, RunOf(cfg, t, net, control, baseline), local, intercept))
  {
    RunIsWellStaged(cfg, t, net, control, baseline);
    StagedFromRun(cfg, net, control, baseline, RunOf(cfg, t, net, control, baseline), local, intercept);
  }

  lemma StagedFromRun(cfg: Config, net: Network, control: DnsCheck.Lookups, baseline: Speed.Measurement, st: Run,
                      local: Option<LocalNet.Result>, intercept: Option<bool>)
    requires cfg.Filled() && WellStaged(cfg, net, control, baseline, st)
    ensures VerdictProofs.Staged(InputOf(cfg, st, local, intercept))
  {
    DnsCheckProofs.AnalysisShape(cfg.tables, net.lookups);
    ProbedFromReference(cfg, net, st);
  }

  /** OK means a validated channel, a normal answer and clean DNS, and is always confident. */
  lemma OkIff(cfg: Config, t: Target, net: Network, control: DnsCheck.Lookups, baseline: Speed.Measurement,
              local: Option<LocalNet.Result>, intercept: Option<bool>)
    requires cfg.Filled()
    ensures var st := RunOf(cfg, t, net, control, baseline);
      var d := DecideRun(cfg, st, local, intercept).decision;
      && (d.verdict.OK? <==>
            && st.tls.Some? && st.tls.value.own.outcome.OK? && cfg.issuers(st.tls.value.own.issuer).None?
            && st.http.Some? && st.http.value.class_.OK? && !(st.speed.Some? && st.speed.value.Some?)
            && !st.analysis.Poisoned() && st.analysis.systemFailure == DnsCheck.NoFailure
            && (st.analysis.suspects == [] || (st.verify.Some? && st.verify.value.outcome.OK?)))
      && (d.verdict.OK? ==> d.confidence == High && d.also == [] && d.reason.key == "ok.http")
  {
    InputIsStaged(cfg, t, net, control, baseline, local, intercept);
    VerdictProofs.OkIff(InputOf(cfg, RunOf(cfg, t, net, control, baseline), local, intercept));
  }

  /** A handshake that succeeded with a host to verify accepted whatever certificate was presented. */
  lemma HandshakeOkIff(peer: TlsCheck.Peer, addr: Base.AddrPort, host: string)
    ensures TlsCheck.HandshakeOf(peer, addr, host, host != "").outcome.OK? <==>
      var x := peer(addr, host);
      x.Completed? && (x.leaf.Some? && host != "" ==> x.leaf.value.problem.None?)
  {
  }

  /** A handshake reports the name it was made under, and what the peer presented. */
  lemma HandshakeReports(peer: TlsCheck.Peer, addr: Base.AddrPort, sni: string, verify: bool)
    ensures var h := TlsCheck.HandshakeOf(peer, addr, sni, verify);
      && h.sni == sni
      && match peer(addr, sni)
         case Completed(version, leaf) =>
           && h.version == version
           && (leaf.Some? ==>
                 && h.issuer == leaf.value.issuer && h.issuerName == leaf.value.issuerName
                 && h.subject == leaf.value.subject)
           && (h.certProblem == if verify && leaf.Some? then leaf.value.problem else None)
         case DialFailed(kind) => h.err == Some(kind) && h.version == "" && h.certProblem == None
         case HandshakeFailed(kind) => h.err == Some(kind) && h.version == "" && h.certProblem == None
  {
  }

  /** The normal answer: a response that is no error, no legal block and no known block page. */
  lemma HttpOkIff(x: HttpCheck.Exchange)
    ensures HttpCheck.ResultOf(x).class_.OK? <==>
      && x.Response? && x.blockPage.None? && x.geoBlock.None? && x.status != 451 && x.status < 500
      && !(x.bodyErr.Some? && x.emptyBody)
  {
  }

  lemma ReachedOnTheWire(cfg: Config, net: Network, control: DnsCheck.Lookups, baseline: Speed.Measurement, st: Run)
    requires cfg.Filled() && WellStaged(cfg, net, control, baseline, st)
    requires st.tls.Some? && st.tls.value.own.outcome.OK? && st.http.Some? && st.http.value.class_.OK?
    ensures Working(st).Some? && Working(st).value.addr.addr in st.analysis.reference
    ensures ServesNormally(cfg, st.target, net, Working(st).value.addr.addr)
  {
    var w := Working(st).value;
    ProbedFromReference(cfg, net, st);
    HandshakeOkIff(net.peer, w.addr, st.target.host);
    HttpOkIff(net.exchange(w.addr, false));
  }

  /** An OK verdict was earned on the wire: some reference address accepted a connection, finished a
      handshake under the target's own name with an accepted certificate, and answered normally. */
  lemma OkOnTheWire(cfg: Config, t: Target, net: Network, control: DnsCheck.Lookups, baseline: Speed.Measurement,
                    local: Option<LocalNet.Result>, intercept: Option<bool>)
    requires cfg.Filled()
    requires DecideRun(cfg, RunOf(cfg, t, net, control, baseline), local, intercept).decision.verdict.OK?
    ensures exists a :: a in DnsCheck.AnalysisOf(cfg.tables, net.lookups).reference && ServesNormally(cfg, t, net, a)
  {
    OkIff(cfg, t, net, control, baseline, local, intercept);
    RunIsWellStaged(cfg, t, net, control, baseline);
    ReachedOnTheWire(cfg, net, control, baseline, RunOf(cfg, t, net, control, baseline));
  }

  ghost predicate ServesNormally(cfg: Config, t: Target, net: Network, a: Addr) {
    var at := cfg.AddrPort(a);
    var hello, answer := net.peer(at, t.host), net.exchange(at, false);
    && net.dial(at).None?
    && hello.Completed? && (hello.leaf.Some? && t.host != "" ==> hello.leaf.value.problem.None?)
    && answer.Response? && answer.blockPage.None? && answer.geoBlock.None?
    && answer.status != 451 && answer.status < 500
    && !(answer.bodyErr.Some? && answer.emptyBody)
  }

  /** Every verdict the pipeline gives is the one the measurements merit; dropped queries are claimed
      exactly when the control name resolves while this one is met with silence everywhere. */
  lemma VerdictIff(cfg: Config, t: Target, net: Network, control: DnsCheck.Lookups, baseline: Speed.Measurement,
                   local: Option<LocalNet.Result>, intercept: Option<bool>, v: Verdict)
    requires cfg.Filled()
    ensures var in_ := InputOf(cfg, RunOf(cfg, t, net, control, baseline), local, intercept);
      var d := V.Decide(in_);
      && (d.verdict == v <==> VerdictProofs.Merits(in_, v))
      && (d.confidence == High <==> VerdictProofs.Certain(in_, d.verdict))
      && (in_.dns.dropped <==> in_.dns.unresolvable && in_.dns.allPlainTimeout && ControlAnswers(control))
  {
    RunIsWellStaged(cfg, t, net, control, baseline);
    InputIsStaged(cfg, t, net, control, baseline, local, intercept);
    VerdictProofs.VerdictIff(InputOf(cfg, RunOf(cfg, t, net, control, baseline), local, intercept), v);
    VerdictProofs.ConfidenceIff(InputOf(cfg, RunOf(cfg, t, net, control, baseline), local, intercept));
  }

  /** The engine's fallbacks are dead code behind the pipeline, and reasons name only addresses seen. */
  lemma ReasonsAreGrounded(cfg: Config, t: Target, net: Network, control: DnsCheck.Lookups,
                           baseline: Speed.Measurement, local: Option<LocalNet.Result>, intercept: Option<bool>)
    requires cfg.Filled()
    ensures var in_ := InputOf(cfg, RunOf(cfg, t, net, control, baseline), local, intercept);
      var d := V.Decide(in_);
      && d.reason.key != "ok.tls"
      && (in_.tcp == [] ==> d.reason.key != "inconclusive")
      && (VerdictProofs.NamesOneOf(d, in_.dns.blockIPs + in_.dns.bogons + in_.dns.suspects)
          || VerdictProofs.NamesOneOf(d, in_.dns.reference))
  {
    InputIsStaged(cfg, t, net, control, baseline, local, intercept);
    var in_ := InputOf(cfg, RunOf(cfg, t, net, control, baseline), local, intercept);
    VerdictProofs.FallbacksUnreachable(in_);
    VerdictProofs.ReasonNamesSeenAddress(in_);
  }

  lemma ProbedFromReference(cfg: Config, net: Network, st: Run)
    requires cfg.Filled() && st.tcp == TcpCheck.ProbesOf(net.dial, Probed(cfg, st))
    ensures |st.tcp| <= cfg.maxAddrs && |st.tcp| <= |st.analysis.reference|
    ensures forall r :: r in st.tcp ==> r.addr.addr in st.analysis.reference && r.addr == cfg.AddrPort(r.addr.addr)
  {
    forall r | r in st.tcp ensures r.addr.addr in st.analysis.reference && r.addr == cfg.AddrPort(r.addr.addr) {
      var i :| 0 <= i < |st.tcp| && st.tcp[i] == r;
      assert r.addr == cfg.AddrPort(st.analysis.reference[i]);
    }
  }

  // --------------------------------------------------------- gentleness

  /** A run opens at most MaxAddrs + 4 connections to a target's addresses. */
  lemma GentlenessBound(cfg: Config, t: Target, net: Network, control: DnsCheck.Lookups, baseline: Speed.Measurement)
    requires cfg.Filled()
    ensures |DialsOf(cfg, RunOf(cfg, t, net, control, baseline))| <= cfg.maxAddrs + 4
  {
    var st := RunOf(cfg, t, net, control, baseline);
    RunIsWellStaged(cfg, t, net, control, baseline);
    ProbedFromReference(cfg, net, st);
    assert |SuspectDials(cfg, st)| <= 1 && |ProbeDials(st)| <= cfg.maxAddrs;
    assert |PathDials(st)| <= 3;
  }

  /** Only reference addresses and the first suspect are dialed, and past TCP only the working one. */
  lemma DialsStayOnTarget(cfg: Config, t: Target, net: Network, control: DnsCheck.Lookups,
                          baseline: Speed.Measurement, d: Dial)
    requires cfg.Filled() && d in DialsOf(cfg, RunOf(cfg, t, net, control, baseline))
    ensures var st := RunOf(cfg, t, net, control, baseline);
      match d.purpose
      case Verifying => st.analysis.suspects != [] && d.addr == cfg.AddrPort(st.analysis.suspects[0])
      case Probing => d.addr.addr in st.analysis.reference
      case _ => Working(st).Some? && d.addr == Working(st).value.addr && d.addr.addr in st.analysis.reference
  {
    var st := RunOf(cfg, t, net, control, baseline);
    RunIsWellStaged(cfg, t, net, control, baseline);
    ProbedFromReference(cfg, net, st);
    if d in ProbeDials(st) {
      var i :| 0 <= i < |st.tcp| && ProbeDials(st)[i] == d;
      assert st.tcp[i] in st.tcp;
    } else if d in PathDials(st) {
      PathDialsMembers(st, d);
      assert Working(st).value in st.tcp;
    }
  }

  lemma PathDialsMembers(st: Run, d: Dial)
    requires d in PathDials(st)
    ensures st.tls.Some? && d.addr == st.tls.value.addr && !d.purpose.Probing? && !d.purpose.Verifying?
  {
  }

  /** The common case costs exactly three connections. */
  lemma HealthyTargetCostsThree(cfg: Config, t: Target, net: Network, control: DnsCheck.Lookups,
                                baseline: Speed.Measurement)
    requires cfg.Filled() && !cfg.speed
    requires var a := DnsCheck.AnalysisOf(cfg.tables, net.lookups);
      && |a.reference| == 1 && a.suspects == []
      && net.dial(cfg.AddrPort(a.reference[0])).None?
      && TlsCheck.HandshakeOf(net.peer, cfg.AddrPort(a.reference[0]), t.host, t.host != "").outcome.OK?
    ensures |DialsOf(cfg, RunOf(cfg, t, net, control, baseline))| == 3
  {
    var st := RunOf(cfg, t, net, control, baseline);
    RunIsWellStaged(cfg, t, net, control, baseline);
    assert Probed(cfg, st) == [cfg.AddrPort(st.analysis.reference[0])];
    assert st.tcp[0] == TcpCheck.ProbeOf(net.dial, cfg.AddrPort(st.analysis.reference[0]));
    assert st.tcp[0] in st.tcp;
    assert |SuspectDials(cfg, st)| == 0 && |ProbeDials(st)| == 1;
    assert |PathDials(st)| == 2;
  }
}
