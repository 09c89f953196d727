// The layers run for one target (checkTarget in internal/probe/probe.go): which of
// them run, on which addresses, and what the verdict engine is handed.
module Pipeline {
  import opened Base
  import opened Model
  import DnsCheck
  import TcpCheck
  import TlsCheck
  import HttpCheck
  import Outage
  import Speed
  import LocalNet
  import VerdictEngine

  // -------------------------------------------------------------- config

  datatype Config = Config(
    concurrency: int,
    maxAddrs: int,
    port: int,
    neutralSni: string,
    speed: bool,
    proxyInUse: bool,
    tables: DnsCheck.Tables,
    issuers: VerdictEngine.IssuerTable
  ) {
    predicate Filled() {
      maxAddrs >= 1
    }

    function AddrPort(a: Addr): Base.AddrPort {
      Base.AddrPort(a, port % 0x1_0000)
    }
  }

  /** Lower bounds and defaults for unset fields; the block-page tables are always set. */
  function FillDefaults(cfg: Config): (r: Config)
    ensures r.Filled() && r.concurrency >= 1 && r.port != 0 && r.neutralSni != ""
    ensures r.maxAddrs == cfg.maxAddrs || (r.maxAddrs == 2 && !cfg.Filled())
    ensures r.concurrency == cfg.concurrency || (r.concurrency == 8 && cfg.concurrency < 1)
    ensures r.port == cfg.port || (r.port == 443 && cfg.port == 0)
    ensures r.neutralSni == cfg.neutralSni || (r.neutralSni == "example.com" && cfg.neutralSni == "")
    ensures r == cfg.(concurrency := r.concurrency, maxAddrs := r.maxAddrs, port := r.port, neutralSni := r.neutralSni)
  {
    cfg.(
      concurrency := if cfg.concurrency <= 0 then 8 else cfg.concurrency,
      maxAddrs := if cfg.maxAddrs <= 0 then 2 else cfg.maxAddrs,
      port := if cfg.port == 0 then 443 else cfg.port,
      neutralSni := if cfg.neutralSni == "" then TlsCheck.DEFAULT_NEUTRAL_SNI else cfg.neutralSni)
  }

  // ----------------------------------------------------------- the network

  /** Everything the network would answer during one target's checks. */
  datatype Network = Network(
    lookups: DnsCheck.Lookups,
    dial: TcpCheck.Dialer,
    peer: TlsCheck.Peer,
    exchange: (Base.AddrPort, bool) -> HttpCheck.Exchange,
    speed: (Base.AddrPort, Speed.Measurement) -> Option<Speed.Throttling>,
    outage: Outage.Result
  )

  // -------------------------------------------------------------- one run

  /** Every layer's result for one target. */
  datatype Run = Run(
    target: Target,
    dns: DnsCheck.Lookups,
    analysis: DnsCheck.Analysis,
    control: Option<DnsCheck.Lookups>,
    tcp: seq<TcpCheck.Result>,
    tls: Option<TlsCheck.Result>,
    verify: Option<TlsCheck.Handshake>,
    http: Option<HttpCheck.Result>,
    outage: Option<Outage.Result>,
    speed: Option<Option<Speed.Throttling>>
  )

  /** Layer 2: DNS. */
  function AfterDns(cfg: Config, t: Target, net: Network): Run {
    Run(t, net.lookups, DnsCheck.AnalysisOf(cfg.tables, net.lookups), None, [], None, None, None, None, None)
  }

  /** Whether every plain resolver timed out and nothing resolved. */
  predicate NeedsControl(st: Run) {
    st.analysis.unresolvable && st.analysis.allPlainTimeout
  }

  predicate ControlAnswers(control: DnsCheck.Lookups) {
    exists a :: a in control.Plain() && a.OK()
  }

  /** The control lookup tells dropped queries from dead resolvers. */
  function AfterControl(st: Run, control: DnsCheck.Lookups): Run {
    st.(control := Some(control), analysis := st.analysis.(dropped := ControlAnswers(control)))
  }

  predicate NeedsVerify(st: Run) {
    st.analysis.suspects != []
  }

  function AfterVerify(cfg: Config, net: Network, st: Run): Run
    requires NeedsVerify(st)
  {
    var addr, host := cfg.AddrPort(st.analysis.suspects[0]), st.target.host;
    var h := TlsCheck.HandshakeOf(net.peer, addr, host, host != "");
    st.(verify := Some(h))
  }

  /** The reference addresses that are probed. */
  function Probed(cfg: Config, st: Run): (addrs: seq<Base.AddrPort>)
    requires cfg.Filled()
    ensures |addrs| <= cfg.maxAddrs
    ensures addrs == [] <==> st.analysis.reference == []
  {
    var n := if |st.analysis.reference| < cfg.maxAddrs then |st.analysis.reference| else cfg.maxAddrs;
    seq(n, i requires 0 <= i < n => cfg.AddrPort(st.analysis.reference[i]))
  }

  /** Layer 3: TCP to the reference addresses. */
  function AfterTcp(cfg: Config, net: Network, st: Run): Run
    requires cfg.Filled()
  {
    st.(tcp := TcpCheck.ProbesOf(net.dial, Probed(cfg, st)))
  }

  function Working(st: Run): Option<TcpCheck.Result> {
    TcpCheck.SummaryOf(st.tcp).working
  }

  /** Layers 4 and 5: TLS and HTTP on the first address that accepted a connection. */
  function AfterHttp(cfg: Config, net: Network, st: Run): Run {
    match Working(st)
    case None => st
    case Some(w) =>
      var tls := TlsCheck.CheckOf(net.peer, w.addr, st.target.host, cfg.neutralSni);
      if tls.own.outcome.OK? || tls.own.outcome.CertInvalid? then
        st.(tls := Some(tls), http := Some(HttpCheck.ResultOf(net.exchange(w.addr, tls.own.outcome.CertInvalid?))))
      else
        st.(tls := Some(tls))
  }

  /** Layer 6 runs on request, for a service that answers normally. */
  predicate NeedsSpeed(cfg: Config, st: Run) {
    Working(st).Some? && cfg.speed && st.http.Some? && st.http.value.class_.OK?
  }

  function AfterSpeed(net: Network, st: Run, baseline: Speed.Measurement): Run
    requires Working(st).Some?
  {
    st.(speed := Some(net.speed(Working(st).value.addr, baseline)))
  }

  predicate PathCleanButFailing(st: Run) {
    if st.analysis.unresolvable then true
    else if st.tls.None? || !st.tls.value.own.outcome.OK? || st.http.None? then false
    else st.http.value.class_.ServerError? || st.http.value.class_.Failed?
  }

  /** Layer 7: the service's status page, when the path looks clean but the service fails. */
  function AfterOutage(net: Network, st: Run): Run {
    if st.target.statusPage != "" && PathCleanButFailing(st) then st.(outage := Some(net.outage)) else st
  }

  /** The control lookup, when it is needed. */
  function ControlStage(st: Run, control: DnsCheck.Lookups): Run {
    if NeedsControl(st) then AfterControl(st, control) else st
  }

  /** The check of a suspect address, when there is one. */
  function VerifyStage(cfg: Config, net: Network, st: Run): Run {
    if NeedsVerify(st) then AfterVerify(cfg, net, st) else st
  }

  /** Layers 4 to 6. */
  function PathStage(cfg: Config, net: Network, st: Run, baseline: Speed.Measurement): Run {
    var done := AfterHttp(cfg, net, st);
    if NeedsSpeed(cfg, done) then AfterSpeed(net, done, baseline) else done
  }

  /** All layers after the resolvers answered. */
  function RunFrom(cfg: Config, net: Network, start: Run, control: DnsCheck.Lookups, baseline: Speed.Measurement): Run
    requires cfg.Filled()
  {
    var st := VerifyStage(cfg, net, ControlStage(start, control));
    AfterOutage(net, PathStage(cfg, net, AfterTcp(cfg, net, st), baseline))
  }

  /** All layers for one target, given the run-wide control lookup and speed baseline. */
  function RunOf(cfg: Config, t: Target, net: Network, control: DnsCheck.Lookups, baseline: Speed.Measurement): Run
    requires cfg.Filled()
  {
    RunFrom(cfg, net, AfterDns(cfg, t, net), control, baseline)
  }

  /** What the verdict engine is handed for a finished run. */
  function InputOf(cfg: Config, st: Run, local: Option<LocalNet.Result>, intercept: Option<bool>): VerdictEngine.Input {
    VerdictEngine.Input(local, intercept, st.analysis, st.tcp, st.tls, st.verify, st.http, st.outage, st.speed,
                        Some(cfg.issuers))
  }

  datatype TargetReport = TargetReport(target: Target, decision: VerdictEngine.Decision)

  function DecideRun(cfg: Config, st: Run, local: Option<LocalNet.Result>, intercept: Option<bool>): TargetReport {
    TargetReport(st.target, VerdictEngine.Decide(InputOf(cfg, st, local, intercept)))
  }

  // --------------------------------------------------------------- dials

  datatype Purpose = Probing | Verifying | OwnName | NeutralName | NoName | Fetching | Measuring

  /** One connection opened for a target. */
  datatype Dial = Dial(addr: Base.AddrPort, purpose: Purpose)

  /** The connections a finished run opened to the target's addresses. */
  function DialsOf(cfg: Config, st: Run): seq<Dial> {
    SuspectDials(cfg, st) + ProbeDials(st) + PathDials(st)
  }

  function SuspectDials(cfg: Config, st: Run): seq<Dial> {
    if st.verify.Some? && st.analysis.suspects != [] then
      [Dial(cfg.AddrPort(st.analysis.suspects[0]), Verifying)]
    else []
  }

  function ProbeDials(st: Run): seq<Dial> {
    seq(|st.tcp|, i requires 0 <= i < |st.tcp| => Dial(st.tcp[i].addr, Probing))
  }

  function PathDials(st: Run): seq<Dial> {
    match st.tls
    case None => []
    case Some(tls) =>
      [Dial(tls.addr, OwnName)]
        + (if tls.neutral.Some? then [Dial(tls.addr, NeutralName)] else [])
        + (if tls.noSni.Some? then [Dial(tls.addr, NoName)] else [])
        + (if st.http.Some? then [Dial(tls.addr, Fetching)] else [])
        + (if st.speed.Some? then [Dial(tls.addr, Measuring)] else [])
  }

  // --------------------------------------------------------- checkTarget

  /** The record checkTarget fills, with the connections it opened on the way. */
  class TargetRun {
    var value: Run
    var dials: seq<Dial>

    constructor (st: Run)
      ensures value == st && dials == []
    {
      value, dials := st, [];
    }
  }

  predicate NoPath(st: Run) {
    st.tls.None? && st.http.None? && st.speed.None?
  }

  class Runner {
    const cfg: Config

    constructor (cfg: Config)
      ensures this.cfg == FillDefaults(cfg) && this.cfg.Filled()
    {
      this.cfg := FillDefaults(cfg);
    }

    /** Layers 2 to 7 for one target; the shared lookups are what the run-wide Onces yield. */
    method CheckTarget(t: Target, net: Network, control: DnsCheck.Lookups, baseline: Speed.Measurement)
        returns (st: TargetRun)
      requires cfg.Filled()
      ensures fresh(st) && st.value == RunOf(cfg, t, net, control, baseline)
      ensures st.dials == DialsOf(cfg, st.value)
    {
      var resolved := CheckDns(t, net, control);
      st := new TargetRun(resolved);
      CheckSuspect(st, net);
      CheckTcp(st, net);
      var sum := TcpCheck.Summarize(st.value.tcp);
      CheckPath(st, net, baseline, sum.working);
      ghost var before := st.value;
      if t.statusPage != "" && PathCleanButFailing(st.value) {
        st.value := st.value.(outage := Some(net.outage));
      }
      assert st.value == AfterOutage(net, before);
      assert DialsOf(cfg, st.value) == DialsOf(cfg, before);
    }

    /** Layer 2, with the control lookup when every plain resolver timed out. */
    method CheckDns(t: Target, net: Network, control: DnsCheck.Lookups) returns (st: Run)
      ensures st == ControlStage(AfterDns(cfg, t, net), control)
      ensures st.target == t && NoPath(st) && st.tcp == [] && st.verify.None?
    {
      var analysis := DnsCheck.Analyze(cfg.tables, net.lookups);
      st := Run(t, net.lookups, analysis, None, [], None, None, None, None, None);
      if st.analysis.unresolvable && st.analysis.allPlainTimeout {
        var ok := ControlOk(control);
        st := st.(control := Some(control), analysis := st.analysis.(dropped := ok));
      }
    }

    /** The handshake with the first suspect address, which runs beside the other layers. */
    method CheckSuspect(st: TargetRun, net: Network)
      requires st.dials == [] && st.value.verify.None?
      modifies st
      ensures st.value == VerifyStage(cfg, net, old(st.value))
      ensures st.value == old(st.value).(verify := st.value.verify)
      ensures st.dials == SuspectDials(cfg, st.value)
    {
      if st.value.analysis.suspects != [] {
        var addr := cfg.AddrPort(st.value.analysis.suspects[0]);
        var host := st.value.target.host;
        var h := TlsCheck.Do(net.peer, addr, host, host);
        st.value := st.value.(verify := Some(h));
        st.dials := st.dials + [Dial(addr, Verifying)];
      }
    }

    /** Layer 3. */
    method CheckTcp(st: TargetRun, net: Network)
      requires cfg.Filled() && st.value.tcp == []
      modifies st
      ensures st.value == AfterTcp(cfg, net, old(st.value))
      ensures st.dials == old(st.dials) + ProbeDials(st.value)
      ensures SuspectDials(cfg, st.value) == old(SuspectDials(cfg, st.value))
      ensures st.value == old(st.value).(tcp := st.value.tcp)
    {
      var addrs := FirstAddrs(st.value);
      if |addrs| > 0 {
        var tcp := TcpCheck.ProbeAll(net.dial, addrs);
        st.value := st.value.(tcp := tcp);
        st.dials := st.dials + seq(|tcp|, i requires 0 <= i < |tcp| => Dial(tcp[i].addr, Probing));
      }
    }

    /** Layers 4 to 6, on the address that accepted a connection. */
    method CheckPath(st: TargetRun, net: Network, baseline: Speed.Measurement, working: Option<TcpCheck.Result>)
      requires cfg.Filled() && working == Working(st.value)
      requires NoPath(st.value)
      modifies st
      ensures st.value == PathStage(cfg, net, old(st.value), baseline)
      ensures st.value.target == old(st.value.target)
      ensures st.dials == old(st.dials) + PathDials(st.value)
      ensures SuspectDials(cfg, st.value) == old(SuspectDials(cfg, st.value))
      ensures ProbeDials(st.value) == old(ProbeDials(st.value))
    {
      if working.None? {
        return;
      }
      var w := working.value.addr;
      CheckHttp(st, net, w);
      if cfg.speed && st.value.http.Some? && st.value.http.value.class_.OK? {
        st.value := st.value.(speed := Some(net.speed(w, baseline)));
        st.dials := st.dials + [Dial(w, Measuring)];
      }
    }

    /** Layers 4 and 5. */
    method CheckHttp(st: TargetRun, net: Network, w: Base.AddrPort)
      requires Working(st.value).Some? && w == Working(st.value).value.addr && NoPath(st.value)
      modifies st
      ensures st.value == AfterHttp(cfg, net, old(st.value)) && st.value.speed.None?
      ensures st.value == old(st.value).(tls := st.value.tls, http := st.value.http)
      ensures st.value.tls.Some? && st.value.tls.value.addr == w
      ensures st.dials == old(st.dials) + PathDials(st.value)
    {
      var tls := CheckTls(st, net, w);
      st.value := st.value.(tls := Some(tls));
      var o := tls.own.outcome;
      if o.OK? || o.CertInvalid? {
        st.value := st.value.(http := Some(HttpCheck.ResultOf(net.exchange(w, o.CertInvalid?))));
        st.dials := st.dials + [Dial(w, Fetching)];
      }
    }

    /** The TLS layer: two more handshakes only when the first is blocked. */
    method CheckTls(st: TargetRun, net: Network, addr: Base.AddrPort) returns (res: TlsCheck.Result)
      modifies st`dials
      ensures res == TlsCheck.CheckOf(net.peer, addr, st.value.target.host, cfg.neutralSni)
      ensures st.dials == old(st.dials) + [Dial(addr, OwnName)]
        + if res.own.Blocked() then [Dial(addr, NeutralName), Dial(addr, NoName)] else []
    {
      var host := st.value.target.host;
      var neutralSni := if cfg.neutralSni == "" then TlsCheck.DEFAULT_NEUTRAL_SNI else cfg.neutralSni;
      st.dials := st.dials + [Dial(addr, OwnName)];
      var own := TlsCheck.Do(net.peer, addr, host, host);
      res := TlsCheck.Result(addr, own, None, None);
      if !res.own.Blocked() {
        return;
      }
      st.dials := st.dials + [Dial(addr, NeutralName), Dial(addr, NoName)];
      var neutral := TlsCheck.Do(net.peer, addr, neutralSni, "");
      var noSni := TlsCheck.Do(net.peer, addr, "", "");
      res := res.(neutral := Some(neutral), noSni := Some(noSni));
    }

    /** The loop that takes at most MaxAddrs reference addresses. */
    method FirstAddrs(st: Run) returns (addrs: seq<Base.AddrPort>)
      requires cfg.Filled()
      ensures addrs == Probed(cfg, st)
    {
      addrs := [];
      for i := 0 to |st.analysis.reference|
        invariant |addrs| == i <= cfg.maxAddrs
        invariant forall k :: 0 <= k < i ==> addrs[k] == cfg.AddrPort(st.analysis.reference[k])
      {
        if |addrs| == cfg.maxAddrs {
          break;
        }
        addrs := addrs + [cfg.AddrPort(st.analysis.reference[i])];
      }
    }

    /** The loop of controlResolves over the system and public answers. */
    method ControlOk(control: DnsCheck.Lookups) returns (ok: bool)
      ensures ok == ControlAnswers(control)
    {
      var plain := control.Plain();
      for i := 0 to |plain|
        invariant forall a :: a in plain[..i] ==> !a.OK()
      {
        if plain[i].OK() {
          assert plain[i] in plain;
          return true;
        }
      }
      return false;
    }
  }
}
