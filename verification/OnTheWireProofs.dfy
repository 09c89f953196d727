// The pipeline and the verdict engine together give every target the verdict its case
// deserves: the layers' results are followed back to what the network did.
module OnTheWireProofs {
  import opened Base
  import opened Model
  import opened OnTheWire
  import P = Pipeline
  import PipelineProofs
  import V = VerdictEngine
  import VerdictProofs
  import DnsCheck
  import DnsCheckProofs
  import HttpCheck
  import LocalNet
  import NetErrors
  import Outage
  import TcpCheck
  import TlsCheck

  ghost function RunIn(c: Case): P.Run
    requires c.cfg.Filled()
  {
    P.RunOf(c.cfg, c.t, c.net, c.control, c.baseline)
  }

  // --------------------------------------------------- one layer at a time

  /** Result k of the TCP layer is the dial of the k-th address. */
  ghost predicate TcpFits(c: Case, tcp: seq<TcpCheck.Result>)
    requires c.cfg.Filled()
  {
    && |tcp| == c.Width()
    && forall k :: 0 <= k < |tcp| ==> tcp[k] == TcpCheck.Result(c.Nth(k), TcpCheck.FromError(c.net.dial(c.Nth(k))))
  }

  lemma TcpFromRun(c: Case)
    requires c.cfg.Filled()
    ensures TcpFits(c, RunIn(c).tcp)
    ensures RunIn(c).analysis.reference == c.Dns().reference
  {
    PipelineProofs.RunIsWellStaged(c.cfg, c.t, c.net, c.control, c.baseline);
    var st := RunIn(c);
    var addrs := P.Probed(c.cfg, st);
    assert |addrs| == c.Width() && forall k :: 0 <= k < |addrs| ==> addrs[k] == c.Nth(k);
  }

  lemma ErrorKinds(err: Option<NetErrors.ErrKind>)
    ensures var o := TcpCheck.FromError(err);
      && (o.OK? <==> err == None) && (o.Timeout? <==> err == Some(NetErrors.Timeout))
      && (o.Unreachable? <==> err == Some(NetErrors.Unreachable))
      && (o.Refused? || o.Reset? <==> err in {Some(NetErrors.Refused), Some(NetErrors.Reset), Some(NetErrors.Eof)})
  {
  }

  /** A dialed address stands behind every result, and every result behind a dialed address. */
  lemma DialsAndResults(c: Case, tcp: seq<TcpCheck.Result>)
    requires c.cfg.Filled() && TcpFits(c, tcp)
    ensures forall r :: r in tcp ==> c.IsDialed(r.addr) && r.outcome == TcpCheck.FromError(c.net.dial(r.addr))
    ensures forall p :: c.IsDialed(p) ==> TcpCheck.Result(p, TcpCheck.FromError(c.net.dial(p))) in tcp
    ensures tcp == [] <==> c.Dns().reference == []
  {
    forall p | c.IsDialed(p) ensures TcpCheck.Result(p, TcpCheck.FromError(c.net.dial(p))) in tcp {
      var k: nat :| k < c.Width() && p == c.Nth(k);
      assert tcp[k] == TcpCheck.Result(p, TcpCheck.FromError(c.net.dial(p)));
    }
  }

  lemma {:induction false} FirstWorkingAt(results: seq<TcpCheck.Result>) returns (k: nat)
    requires TcpCheck.FirstWorking(results).Some?
    ensures k < |results| && results[k].outcome.OK? && TcpCheck.FirstWorking(results) == Some(results[k])
    ensures forall j :: 0 <= j < k ==> !results[j].outcome.OK?
  {
    if results[0].outcome.OK? {
      k := 0;
    } else {
      var j := FirstWorkingAt(results[1..]);
      k := j + 1;
    }
  }

  /** The working address, on both levels. */
  lemma WorkingIff(c: Case, tcp: seq<TcpCheck.Result>)
    requires c.cfg.Filled() && TcpFits(c, tcp)
    ensures var working := TcpCheck.SummaryOf(tcp).working;
      && (working.Some? ==> c.IsWorking(working.value.addr))
      && (forall w :: c.IsWorking(w) ==> working.Some? && working.value.addr == w)
      && (c.Connected() <==> working.Some?)
  {
    var working := TcpCheck.FirstWorking(tcp);
    if working.Some? {
      var k := FirstWorkingAt(tcp);
      forall j: nat | j < k ensures c.net.dial(c.Nth(j)) != None {
        assert !tcp[j].outcome.OK?;
      }
      ErrorKinds(c.net.dial(c.Nth(k)));
      assert c.Nth(k) == working.value.addr;
    }
    forall w | c.IsWorking(w) ensures working.Some? && working.value.addr == w {
      WorkingIsFirst(c, tcp, w);
    }
    ConnectedIff(c, tcp);
  }

  lemma WorkingIsFirst(c: Case, tcp: seq<TcpCheck.Result>, w: AddrPort)
    requires c.cfg.Filled() && TcpFits(c, tcp) && c.IsWorking(w)
    ensures TcpCheck.FirstWorking(tcp).Some? && TcpCheck.FirstWorking(tcp).value.addr == w
  {
    var k: nat :| k < c.Width() && w == c.Nth(k) && c.net.dial(w) == None
      && forall j: nat :: j < k ==> c.net.dial(c.Nth(j)) != None;
    assert tcp[k].outcome.OK? && tcp[k] in tcp;
    var i := FirstWorkingAt(tcp);
    ErrorKinds(c.net.dial(c.Nth(i)));
    assert !(i < k);
  }

  lemma ConnectedIff(c: Case, tcp: seq<TcpCheck.Result>)
    requires c.cfg.Filled() && TcpFits(c, tcp)
    ensures c.Connected() <==> TcpCheck.FirstWorking(tcp).Some?
    ensures c.Connected() <==> exists r :: r in tcp && r.outcome.OK?
  {
    DialsAndResults(c, tcp);
    if p :| c.IsDialed(p) && c.net.dial(p) == None {
      var r := TcpCheck.Result(p, TcpCheck.FromError(c.net.dial(p)));
      assert r in tcp && r.outcome.OK?;
    }
    if r :| r in tcp && r.outcome.OK? {
      ErrorKinds(c.net.dial(r.addr));
      assert c.IsDialed(r.addr) && c.net.dial(r.addr) == None;
    }
  }

  /** How unanimous failures and rejections show in the results. */
  lemma FailuresIff(c: Case, tcp: seq<TcpCheck.Result>)
    requires c.cfg.Filled() && TcpFits(c, tcp)
    ensures (forall r :: r in tcp ==> r.outcome.Timeout?) <==> c.AllFailWith(NetErrors.Timeout)
    ensures (forall r :: r in tcp ==> r.outcome.Unreachable?) <==> c.AllFailWith(NetErrors.Unreachable)
    ensures (exists r :: r in tcp && r.Rejected()) <==> exists p :: c.IsDialed(p) && c.Rejected(p)
  {
    DialsAndResults(c, tcp);
    forall p ensures var o := TcpCheck.FromError(c.net.dial(p));
      && (o.Timeout? <==> c.net.dial(p) == Some(NetErrors.Timeout))
      && (o.Unreachable? <==> c.net.dial(p) == Some(NetErrors.Unreachable))
      && (o.Refused? || o.Reset? <==> c.Rejected(p))
    {
      ErrorKinds(c.net.dial(p));
    }
    if r :| r in tcp && r.Rejected() {
      assert c.IsDialed(r.addr) && c.Rejected(r.addr);
    }
    if p :| c.IsDialed(p) && c.Rejected(p) {
      assert TcpCheck.Result(p, TcpCheck.FromError(c.net.dial(p))).Rejected();
    }
  }

  /** A handshake under the target's own name. */
  lemma OwnIff(c: Case, w: AddrPort)
    ensures var h := TlsCheck.HandshakeOf(c.net.peer, w, c.t.host, c.t.host != "");
      && (h.outcome.OK? <==> c.Accepted(c.Own(w))) && (h.outcome.CertInvalid? <==> c.Refused(c.Own(w)))
      && (h.outcome.Timeout? <==> c.Own(w) == TlsCheck.HandshakeFailed(NetErrors.Timeout))
      && (h.outcome.Reset? || h.outcome.Eof? <==> Died(c.Own(w)) && c.Own(w).tlsErr != NetErrors.Timeout)
      && (h.Blocked() <==> Died(c.Own(w))) && (h.Reached() <==> Answered(c.Own(w)))
      && (c.Own(w).Completed? ==> (c.cfg.issuers(h.issuer).Some? <==> c.Inspected(c.Own(w))))
  {
  }

  lemma OtherIff(c: Case, w: AddrPort, name: string)
    ensures TlsCheck.HandshakeOf(c.net.peer, w, name, false).Reached() <==> Answered(c.net.peer(w, name))
  {
  }

  /** The SNI test compares the target's own name with the neutral one and with none. */
  lemma FilteredIff(c: Case, w: AddrPort)
    ensures TlsCheck.CheckOf(c.net.peer, w, c.t.host, c.cfg.neutralSni).SniFiltered() <==> c.Filtered(w)
  {
    OwnIff(c, w);
    OtherIff(c, w, c.OtherName());
    OtherIff(c, w, "");
  }

  lemma ResponseIff(x: HttpCheck.Exchange)
    ensures var h := HttpCheck.ResultOf(x);
      && (h.class_.BlockPage? <==> IsBlockPage(x)) && (h.class_.GeoBlock? || h.class_.Legal? <==> IsGeoBlock(x))
      && (h.class_.ServerError? <==> ServerFails(x)) && (h.class_.Failed? <==> Broken(x))
      && (h.class_.OK? <==> Normal(x)) && (VerdictProofs.Cut(h) <==> CutOff(x))
  {
  }

  /** What layers 4 to 6 found at the working address. */
  ghost predicate PathFits(c: Case, st: P.Run, w: AddrPort) {
    && st.tls.Some?
    && st.tls.value == TlsCheck.CheckOf(c.net.peer, w, c.t.host, c.cfg.neutralSni)
    && (st.http.Some? <==> c.Own(w).Completed?)
    && (st.http.Some? ==> st.http.value == HttpCheck.ResultOf(c.Fetched(w)))
    && (st.speed.Some? && st.speed.value.Some? <==> c.Own(w).Completed? && c.Slowed(w))
    && (st.speed.Some? ==> st.speed.value == c.net.speed(w, c.baseline))
  }

  lemma PathFromRun(c: Case, w: AddrPort)
    requires c.cfg.Filled() && c.IsWorking(w)
    ensures PathFits(c, RunIn(c), w)
  {
    var st := RunIn(c);
    PipelineProofs.RunIsWellStaged(c.cfg, c.t, c.net, c.control, c.baseline);
    TcpFromRun(c);
    WorkingIff(c, st.tcp);
    OwnIff(c, w);
    if st.http.Some? {
      ResponseIff(c.Fetched(w));
    }
  }

  /** A finished diagnosis claims SNI filtering at the working address alone, and exactly when the target's
      own name is cut off there while the neutral name, or no name, is answered. */
  lemma SniFilteredOnTheWire(c: Case)
    requires c.cfg.Filled()
    ensures var st := RunIn(c);
      && (st.tls.Some? <==> exists w :: c.IsWorking(w))
      && forall w :: c.IsWorking(w) ==>
           && st.tls.value.addr == w
           && (st.tls.value.SniFiltered() <==> c.Filtered(w))
           && (st.tls.value.neutral.Some? <==> Died(c.Own(w)))
           && (st.tls.value.noSni.Some? <==> Died(c.Own(w)))
  {
    NoPathFromRun(c);
    forall w | c.IsWorking(w)
      ensures var tls := RunIn(c).tls;
        && tls.Some? && tls.value.addr == w && (tls.value.SniFiltered() <==> c.Filtered(w))
        && (tls.value.neutral.Some? <==> Died(c.Own(w))) && (tls.value.noSni.Some? <==> Died(c.Own(w)))
    {
      PathFromRun(c, w);
      FilteredIff(c, w);
      OwnIff(c, w);
    }
  }

  lemma NoPathFromRun(c: Case)
    requires c.cfg.Filled()
    ensures RunIn(c).tls.Some? <==> c.Connected()
    ensures RunIn(c).http.Some? || RunIn(c).speed.Some? ==> RunIn(c).tls.Some?
    ensures c.Connected() <==> exists w :: c.IsWorking(w)
  {
    PipelineProofs.RunIsWellStaged(c.cfg, c.t, c.net, c.control, c.baseline);
    TcpFromRun(c);
    WorkingIff(c, RunIn(c).tcp);
  }

  lemma ControlIff(c: Case)
    ensures P.ControlAnswers(c.control) <==> c.ControlResolves()
  {
    var plain := c.control.Plain();
    if P.ControlAnswers(c.control) {
      var ans :| ans in plain && ans.OK();
      assert ans == c.control.system || ans in c.control.public;
    }
    if c.ControlResolves() {
      var ans :| (ans == c.control.system || ans in c.control.public) && ans.err == None && ans.addrs != [];
      assert plain[0] == c.control.system && plain[1..] == c.control.public;
      assert ans in plain && ans.OK();
    }
  }

  /** The remaining fields. */
  lemma RestFromRun(c: Case)
    requires c.cfg.Filled()
    ensures var st := RunIn(c);
      && st.analysis == c.Dns().(dropped := c.Dropped())
      && (st.verify.Some? <==> c.Dns().suspects != [])
      && (st.verify.Some? ==>
            st.verify.value
              == TlsCheck.HandshakeOf(c.net.peer, c.At(c.Dns().suspects[0]), c.t.host, c.t.host != ""))
      && (st.outage.Some? <==> c.t.statusPage != "" && P.PathCleanButFailing(st))
      && (st.outage.Some? ==> st.outage.value == c.net.outage)
  {
    PipelineProofs.RunIsWellStaged(c.cfg, c.t, c.net, c.control, c.baseline);
    ControlIff(c);
  }

  // ------------------------------------------------ the engine's input

  ghost function InputIn(c: Case, intercept: Option<bool>): V.Input
    requires c.cfg.Filled()
  {
    P.InputOf(c.cfg, RunIn(c), c.local, intercept)
  }

  /** What the engine is handed, field by field. */
  ghost predicate Fits(c: Case, in_: V.Input)
    requires c.cfg.Filled()
  {
    && VerdictProofs.Staged(in_) && TcpFits(c, in_.tcp)
    && in_.local == c.local && (V.Intercepted(in_) <==> c.hijacked) && in_.issuers == Some(c.cfg.issuers)
    && in_.dns == c.Dns().(dropped := c.Dropped())
    && (in_.tls.Some? <==> c.Connected()) && (c.Connected() <==> exists w :: c.IsWorking(w))
    && (forall w :: c.IsWorking(w) ==> InputPathFits(c, in_, w))
    && (in_.verify.Some? ==>
          in_.verify.value
            == TlsCheck.HandshakeOf(c.net.peer, c.At(c.Dns().suspects[0]), c.t.host, c.t.host != ""))
    && (in_.outage.Some? ==> in_.outage.value == c.net.outage && c.t.statusPage != "")
    && (c.Dns().unresolvable && c.t.statusPage != "" ==> in_.outage.Some?)
    && (c.t.statusPage != "" && ServiceFails(in_) ==> in_.outage.Some?)
  }

  /** The path is clean and the service fails. */
  ghost predicate ServiceFails(in_: V.Input) {
    && in_.tls.Some? && in_.tls.value.own.outcome.OK? && in_.http.Some?
    && (in_.http.value.class_.ServerError? || in_.http.value.class_.Failed?)
  }

  ghost predicate InputPathFits(c: Case, in_: V.Input, w: AddrPort) {
    && in_.tls.Some?
    && in_.tls.value == TlsCheck.CheckOf(c.net.peer, w, c.t.host, c.cfg.neutralSni)
    && (in_.http.Some? <==> c.Own(w).Completed?)
    && (in_.http.Some? ==> in_.http.value == HttpCheck.ResultOf(c.Fetched(w)))
    && (in_.speed.Some? && in_.speed.value.Some? <==> c.Own(w).Completed? && c.Slowed(w))
    && (in_.speed.Some? ==> in_.speed.value == c.net.speed(w, c.baseline))
  }

  lemma InputPaths(c: Case, intercept: Option<bool>)
    requires c.cfg.Filled()
    ensures var in_ := InputIn(c, intercept); forall w :: c.IsWorking(w) ==> InputPathFits(c, in_, w)
  {
    forall w | c.IsWorking(w) ensures InputPathFits(c, InputIn(c, intercept), w) {
      PathFromRun(c, w);
    }
  }

  lemma InputOutage(c: Case, intercept: Option<bool>)
    requires c.cfg.Filled()
    ensures var in_ := InputIn(c, intercept);
      && (in_.outage.Some? ==> in_.outage.value == c.net.outage && c.t.statusPage != "")
      && (c.Dns().unresolvable && c.t.statusPage != "" ==> in_.outage.Some?)
      && (c.t.statusPage != "" && ServiceFails(in_) ==> in_.outage.Some?)
  {
    RestFromRun(c);
  }

  lemma InputFits(c: Case, intercept: Option<bool>)
    requires c.cfg.Filled() && (c.hijacked <==> intercept == Some(true))
    ensures Fits(c, InputIn(c, intercept))
  {
    PipelineProofs.InputIsStaged(c.cfg, c.t, c.net, c.control, c.baseline, c.local, intercept);
    TcpFromRun(c);
    NoPathFromRun(c);
    InputPaths(c, intercept);
    InputOutage(c, intercept);
    RestFromRun(c);
  }

  // ------------------------------------------ findings on both levels

  lemma UnusableIff(c: Case)
    ensures c.local.Some? && c.local.value.Down().Some? <==> c.LocalUnusable()
  {
  }

  lemma LocalIff(c: Case, in_: V.Input)
    requires c.cfg.Filled() && Fits(c, in_)
    ensures VerdictProofs.LocalDown(in_) <==> c.LocalBlamed()
  {
    UnusableIff(c);
    ConnectedIff(c, in_.tcp);
  }

  lemma OneWorking(c: Case, tcp: seq<TcpCheck.Result>, w: AddrPort, x: AddrPort)
    requires c.cfg.Filled() && TcpFits(c, tcp) && c.IsWorking(w) && c.IsWorking(x)
    ensures w == x
  {
    WorkingIff(c, tcp);
  }

  lemma InspectionIff(c: Case, in_: V.Input, w: AddrPort)
    requires c.cfg.Filled() && Fits(c, in_) && c.IsWorking(w) && c.Own(w).Completed?
    ensures VerdictProofs.KnownInspection(in_, in_.tls.value.own) <==> c.Inspected(c.Own(w))
    ensures VerdictProofs.Validated(in_) <==> c.Sound(w)
  {
    OwnIff(c, w);
  }

  lemma OutageIff(c: Case, in_: V.Input)
    requires c.cfg.Filled() && Fits(c, in_)
    ensures in_.dns.unresolvable || ServiceFails(in_) ==>
      (VerdictProofs.OutageConfirmed(in_) <==> c.OutageReported())
  {
  }

  /** At a working address whose handshake completed, the response decides. */
  lemma AnsweredFault(c: Case, in_: V.Input, w: AddrPort, v: Verdict)
    requires c.cfg.Filled() && Fits(c, in_) && c.IsWorking(w) && c.Own(w).Completed?
    ensures VerdictProofs.FoundInResponse(in_, c.Refused(c.Own(w)), in_.http.value, v) <==> ResponseFault(c, w, v)
    ensures VerdictProofs.Validated(in_) && VerdictProofs.Cut(in_.http.value) <==> c.Sound(w) && CutOff(c.Fetched(w))
  {
    OwnIff(c, w);
    InspectionIff(c, in_, w);
    ResponseIff(c.Fetched(w));
    OutageIff(c, in_);
  }

  ghost predicate ResponseFault(c: Case, w: AddrPort, v: Verdict)
    requires c.cfg.Filled()
  {
    match v
    case BlockPage => IsBlockPage(c.Fetched(w))
    case TlsIntercepted => !IsBlockPage(c.Fetched(w)) && (c.Refused(c.Own(w)) || c.Inspected(c.Own(w)))
    case ProviderGeoBlock => c.Sound(w) && IsGeoBlock(c.Fetched(w))
    case Throttled => c.Sound(w) && c.Slowed(w)
    case UpstreamOutage =>
      && c.Sound(w)
      && (ServerFails(c.Fetched(w)) || (Broken(c.Fetched(w)) && !CutOff(c.Fetched(w)) && c.OutageReported()))
    case _ => false
  }

  /** What is at fault at the working address. */
  ghost predicate FaultAt(c: Case, w: AddrPort, v: Verdict)
    requires c.cfg.Filled()
  {
    match v
    case IpBlocked => c.Own(w) == TlsCheck.HandshakeFailed(NetErrors.Timeout) && !c.Filtered(w)
    case ConnectionReset =>
      || (Died(c.Own(w)) && c.Own(w).tlsErr != NetErrors.Timeout && !c.Filtered(w))
      || (c.Sound(w) && CutOff(c.Fetched(w)))
    case SniFiltered => c.Filtered(w)
    case _ => c.Own(w).Completed? && ResponseFault(c, w, v)
  }

  lemma HandshakeFault(c: Case, in_: V.Input, w: AddrPort, v: Verdict)
    requires c.cfg.Filled() && InputPathFits(c, in_, w) && VerdictProofs.Connected(in_)
    requires v.IpBlocked? || v.SniFiltered?
    ensures VerdictProofs.FoundOnPath(in_, v) <==> FaultAt(c, w, v)
  {
    OwnIff(c, w);
    FilteredIff(c, w);
  }

  lemma ResetFault(c: Case, in_: V.Input, w: AddrPort)
    requires c.cfg.Filled() && InputPathFits(c, in_, w) && VerdictProofs.Connected(in_)
    requires VerdictProofs.Validated(in_) && VerdictProofs.Cut(in_.http.value) <==> c.Sound(w) && CutOff(c.Fetched(w))
    ensures VerdictProofs.FoundOnPath(in_, ConnectionReset) <==> FaultAt(c, w, ConnectionReset)
  {
    OwnIff(c, w);
    FilteredIff(c, w);
  }

  lemma ConnectedFault(c: Case, in_: V.Input, w: AddrPort, v: Verdict)
    requires c.cfg.Filled() && Fits(c, in_) && c.IsWorking(w)
    ensures VerdictProofs.FoundOnPath(in_, v) <==> FaultAt(c, w, v)
  {
    ConnectedIff(c, in_.tcp);
    if c.Own(w).Completed? {
      OwnIff(c, w);
      AnsweredFault(c, in_, w, v);
    }
    if v.IpBlocked? || v.SniFiltered? {
      HandshakeFault(c, in_, w, v);
    } else if v.ConnectionReset? {
      ResetFault(c, in_, w);
    }
  }

  ghost predicate OnlyWorking(c: Case, w: AddrPort)
    requires c.cfg.Filled()
  {
    c.IsWorking(w) && c.Connected() && forall x :: c.IsWorking(x) ==> x == w
  }

  lemma WorkingAlone(c: Case, tcp: seq<TcpCheck.Result>, w: AddrPort)
    requires c.cfg.Filled() && TcpFits(c, tcp) && c.IsWorking(w)
    ensures OnlyWorking(c, w)
  {
    WorkingIff(c, tcp);
  }

  lemma HandshakeFaultAt(c: Case, w: AddrPort, v: Verdict)
    requires c.cfg.Filled() && OnlyWorking(c, w) && (v.IpBlocked? || v.ConnectionReset? || v.SniFiltered?)
    ensures c.AtFault(v) <==> FaultAt(c, w, v)
  {
    NotUnanimous(c, w);
  }

  lemma ResponseFaultAt(c: Case, w: AddrPort, v: Verdict)
    requires c.cfg.Filled() && OnlyWorking(c, w) && !(v.IpBlocked? || v.ConnectionReset? || v.SniFiltered?)
    ensures c.AtFault(v) <==> FaultAt(c, w, v)
  {
  }

  lemma FaultIsAtWorking(c: Case, tcp: seq<TcpCheck.Result>, w: AddrPort, v: Verdict)
    requires c.cfg.Filled() && TcpFits(c, tcp) && c.IsWorking(w)
    ensures c.AtFault(v) <==> FaultAt(c, w, v)
  {
    WorkingAlone(c, tcp, w);
    if v.IpBlocked? || v.ConnectionReset? || v.SniFiltered? {
      HandshakeFaultAt(c, w, v);
    } else {
      ResponseFaultAt(c, w, v);
    }
  }

  lemma NotUnanimous(c: Case, w: AddrPort)
    requires c.cfg.Filled() && c.IsWorking(w)
    ensures !c.AllFailWith(NetErrors.Timeout) && !c.AllFailWith(NetErrors.Unreachable)
  {
    assert c.IsDialed(w) && c.net.dial(w) == None;
  }

  /** What failed dials alone prove. */
  ghost predicate DialFault(c: Case, v: Verdict)
    requires c.cfg.Filled()
  {
    match v
    case IpBlocked =>
      c.Dns().reference != [] && (c.AllFailWith(NetErrors.Timeout) || c.AllFailWith(NetErrors.Unreachable))
    case ConnectionReset => exists p :: c.IsDialed(p) && c.Rejected(p)
    case _ => false
  }

  lemma UnconnectedCase(c: Case, v: Verdict)
    requires c.cfg.Filled() && !c.Connected() && !exists w :: c.IsWorking(w)
    ensures c.AtFault(v) <==> DialFault(c, v)
  {
  }

  /** The same, in the results. */
  ghost predicate ResultFault(tcp: seq<TcpCheck.Result>, v: Verdict) {
    match v
    case IpBlocked =>
      && tcp != []
      && ((forall r :: r in tcp ==> r.outcome.Timeout?) || forall r :: r in tcp ==> r.outcome.Unreachable?)
    case ConnectionReset => exists r :: r in tcp && r.Rejected()
    case _ => false
  }

  lemma UnconnectedInput(in_: V.Input, v: Verdict)
    requires VerdictProofs.Staged(in_) && in_.tls.None? && !VerdictProofs.Connected(in_)
    ensures VerdictProofs.FoundOnPath(in_, v) <==> ResultFault(in_.tcp, v)
  {
  }

  lemma UnconnectedResults(c: Case, tcp: seq<TcpCheck.Result>, v: Verdict)
    requires c.cfg.Filled() && TcpFits(c, tcp)
    ensures ResultFault(tcp, v) <==> DialFault(c, v)
  {
    FailuresIff(c, tcp);
    assert tcp == [] <==> c.Dns().reference == [];
  }

  lemma UnconnectedFault(c: Case, in_: V.Input, v: Verdict)
    requires c.cfg.Filled() && Fits(c, in_) && !c.Connected()
    ensures VerdictProofs.FoundOnPath(in_, v) <==> c.AtFault(v)
  {
    ConnectedIff(c, in_.tcp);
    UnconnectedInput(in_, v);
    UnconnectedResults(c, in_.tcp, v);
    UnconnectedCase(c, v);
  }

  lemma FaultIff(c: Case, in_: V.Input, v: Verdict)
    requires c.cfg.Filled() && Fits(c, in_)
    ensures VerdictProofs.FoundOnPath(in_, v) <==> c.AtFault(v)
  {
    if w :| c.IsWorking(w) {
      ConnectedFault(c, in_, w, v);
      FaultIsAtWorking(c, in_.tcp, w, v);
    } else {
      UnconnectedFault(c, in_, v);
    }
  }

  lemma InOrderIff(c: Case, in_: V.Input)
    requires c.cfg.Filled() && Fits(c, in_)
    ensures VerdictProofs.AllInOrder(in_) <==> c.InOrder()
  {
    if w :| c.IsWorking(w) {
      forall x | c.IsWorking(x) ensures x == w {
        OneWorking(c, in_.tcp, w, x);
      }
      if c.Own(w).Completed? {
        InspectionIff(c, in_, w);
        ResponseIff(c.Fetched(w));
      }
    }
  }

  lemma MismatchIff(c: Case, in_: V.Input)
    requires c.cfg.Filled() && Fits(c, in_)
    ensures V.Mismatch(in_) <==> c.SuspectDisproved()
  {
    if c.Dns().suspects != [] {
      var s := c.At(c.Dns().suspects[0]);
      OwnIff(c, s);
      assert in_.verify.Some?;
      if w :| c.IsWorking(w) {
        OwnIff(c, w);
        forall x | c.IsWorking(x) ensures x == w {
          OneWorking(c, in_.tcp, w, x);
        }
      }
    }
  }

  lemma DnsIff(c: Case, in_: V.Input)
    requires c.cfg.Filled() && Fits(c, in_)
    ensures VerdictProofs.DnsLies(in_) <==> c.DnsLies()
    ensures VerdictProofs.DnsClean(in_) && !V.Mismatch(in_) <==> c.DnsHealthy()
    ensures in_.dns.dropped <==> c.Dropped()
    ensures in_.dns.unresolvable && VerdictProofs.OutageConfirmed(in_) <==> c.Dns().unresolvable && c.OutageReported()
  {
    MismatchIff(c, in_);
    OutageIff(c, in_);
  }

  lemma UnresolvableHasNoSuspect(c: Case)
    ensures c.Dns().unresolvable ==> c.Dns().suspects == []
  {
    DnsCheckProofs.AnalysisShape(c.cfg.tables, c.net.lookups);
  }

  lemma MeritsIsDeserves(c: Case, in_: V.Input, v: Verdict)
    requires c.cfg.Filled() && Fits(c, in_)
    ensures VerdictProofs.Merits(in_, v) <==> c.Deserves(v)
  {
    forall x ensures VerdictProofs.FoundOnPath(in_, x) <==> c.AtFault(x) {
      FaultIff(c, in_, x);
    }
    LocalIff(c, in_);
    InOrderIff(c, in_);
    DnsIff(c, in_);
    UnresolvableHasNoSuspect(c);
  }

  // ------------------------------------------------------- the theorem

  /** A diagnosis gives a verdict exactly when the network, the resolvers and the machine deserve it. */
  lemma VerdictOnTheWire(c: Case, intercept: Option<bool>, v: Verdict)
    requires c.cfg.Filled() && (c.hijacked <==> intercept == Some(true))
    ensures P.DecideRun(c.cfg, RunIn(c), c.local, intercept).decision.verdict == v <==> c.Deserves(v)
    ensures P.DecideRun(c.cfg, RunIn(c), c.local, intercept).target == c.t
  {
    InputFits(c, intercept);
    VerdictProofs.VerdictIff(InputIn(c, intercept), v);
    MeritsIsDeserves(c, InputIn(c, intercept), v);
    PipelineProofs.RunIsWellStaged(c.cfg, c.t, c.net, c.control, c.baseline);
  }

  // --------------------------------------------------------- the dials

  /** The connections opened at the working address, in order. */
  ghost function PathDialsAt(c: Case, w: AddrPort): seq<P.Dial> {
    [P.Dial(w, P.OwnName)]
      + (if Died(c.Own(w)) then [P.Dial(w, P.NeutralName), P.Dial(w, P.NoName)] else [])
      + (if c.Own(w).Completed? then [P.Dial(w, P.Fetching)] else [])
      + (if c.Own(w).Completed? && c.cfg.speed && Normal(c.Fetched(w)) then [P.Dial(w, P.Measuring)] else [])
  }

  lemma SpeedRuns(c: Case, w: AddrPort)
    requires c.cfg.Filled() && c.IsWorking(w)
    ensures RunIn(c).speed.Some? <==> c.Own(w).Completed? && c.cfg.speed && Normal(c.Fetched(w))
  {
    PipelineProofs.RunIsWellStaged(c.cfg, c.t, c.net, c.control, c.baseline);
    PathFromRun(c, w);
    ResponseIff(c.Fetched(w));
  }

  lemma PathDialsFit(c: Case, st: P.Run, w: AddrPort)
    requires PathFits(c, st, w)
    requires st.speed.Some? <==> c.Own(w).Completed? && c.cfg.speed && Normal(c.Fetched(w))
    ensures P.PathDials(st) == PathDialsAt(c, w)
  {
    OwnIff(c, w);
  }

  lemma PathDialsFromRun(c: Case, w: AddrPort)
    requires c.cfg.Filled() && c.IsWorking(w)
    ensures P.PathDials(RunIn(c)) == PathDialsAt(c, w)
  {
    PathFromRun(c, w);
    SpeedRuns(c, w);
    PathDialsFit(c, RunIn(c), w);
  }

  ghost function SuspectDialsAt(c: Case): seq<P.Dial> {
    if c.Dns().suspects != [] then [P.Dial(c.At(c.Dns().suspects[0]), P.Verifying)] else []
  }

  ghost function ProbeDialsAt(c: Case): seq<P.Dial>
    requires c.cfg.Filled()
  {
    seq(c.Width(), k requires 0 <= k < c.Width() => P.Dial(c.Nth(k), P.Probing))
  }

  lemma EarlyDialsFromRun(c: Case)
    requires c.cfg.Filled()
    ensures P.SuspectDials(c.cfg, RunIn(c)) == SuspectDialsAt(c)
    ensures P.ProbeDials(RunIn(c)) == ProbeDialsAt(c)
  {
    RestFromRun(c);
    TcpFromRun(c);
  }

  /** The first suspect is dialed, then each reference address up to the limit, then the working one. */
  lemma DialsOnTheWire(c: Case)
    requires c.cfg.Filled()
    ensures var dials, early := P.DialsOf(c.cfg, RunIn(c)), SuspectDialsAt(c) + ProbeDialsAt(c);
      && (!c.Connected() ==> dials == early)
      && (forall w :: c.IsWorking(w) ==> dials == early + PathDialsAt(c, w))
  {
    EarlyDialsFromRun(c);
    NoPathFromRun(c);
    forall w | c.IsWorking(w) ensures P.PathDials(RunIn(c)) == PathDialsAt(c, w) {
      PathDialsFromRun(c, w);
    }
  }
}
