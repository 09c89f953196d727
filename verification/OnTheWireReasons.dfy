// The rest of a decision: how sure the tool is of a verdict, which reason it gives with
// which arguments, and what it lists beside it.
module OnTheWireReasons {
  import opened Base
  import opened Model
  import opened OnTheWire
  import opened OnTheWireProofs
  import opened VerdictEngine
  import P = Pipeline
  import PipelineProofs
  import VerdictProofs
  import HttpCheck
  import NetErrors
  import Outage
  import TcpCheck
  import TlsCheck

  // ------------------------------------------------------- DNS reasons

  lemma FirstOfBad(c: Case)
    requires c.Dns().blockIPs + c.Dns().bogons + c.Dns().suspects != []
    ensures First(c.Dns().blockIPs, c.Dns().bogons, c.Dns().suspects)
      == map["ip" := IpArg((c.Dns().blockIPs + c.Dns().bogons + c.Dns().suspects)[0])]
  {
  }

  /** What the DNS rules read. */
  ghost predicate DnsFits(c: Case, in_: Input)
    requires c.cfg.Filled()
  {
    && in_.dns == c.Dns().(dropped := in_.dns.dropped) && (Intercepted(in_) <==> c.hijacked)
    && (Mismatch(in_) <==> c.SuspectDisproved())
  }

  lemma LiesFit(c: Case, in_: Input)
    requires c.cfg.Filled() && DnsFits(c, in_)
    ensures in_.dns.Poisoned() || Mismatch(in_) <==> c.DnsLies()
    ensures in_.dns.systemFailure == c.Dns().systemFailure && in_.dns.injectedPublic == c.Dns().injectedPublic
  {
  }

  lemma DnsFinding(in_: Input)
    ensures DnsDecision(in_).Some? ==>
      (DnsDecision(in_).value.verdict.DnsIntercepted? <==>
        (in_.dns.Poisoned() || Mismatch(in_)) && (Intercepted(in_) || in_.dns.injectedPublic))
  {
  }

  lemma DnsVerdict(c: Case, in_: Input)
    requires c.cfg.Filled() && DnsFits(c, in_)
    ensures DnsDecision(in_).Some? <==> !c.DnsHealthy()
    ensures DnsDecision(in_).Some? ==>
      (DnsDecision(in_).value.verdict.DnsIntercepted? <==> c.DnsLies() && (c.hijacked || c.Dns().injectedPublic))
  {
    LiesFit(c, in_);
    DnsFinding(in_);
    VerdictProofs.DnsDecisionShape(in_);
  }

  lemma LieReason(c: Case, in_: Input)
    requires c.cfg.Filled() && DnsFits(c, in_) && c.DnsLies()
    ensures DnsDecision(in_).Some? && c.Explained(DnsDecision(in_).value)
  {
    FirstOfBad(c);
  }

  lemma FailureReason(c: Case, in_: Input)
    requires c.cfg.Filled() && DnsFits(c, in_) && !c.DnsLies() && DnsDecision(in_).Some?
    ensures c.Explained(DnsDecision(in_).value)
  {
  }

  lemma DnsReason(c: Case, in_: Input)
    requires c.cfg.Filled() && DnsFits(c, in_) && DnsDecision(in_).Some?
    ensures c.Explained(DnsDecision(in_).value)
  {
    if c.DnsLies() {
      LieReason(c, in_);
    } else {
      FailureReason(c, in_);
    }
  }

  // ---------------------------------------- reasons at the working address

  /** A decision of the path layers and what it is owed to. */
  ghost predicate Owed(c: Case, w: AddrPort, d: Decision)
    requires c.cfg.Filled()
  {
    match d.verdict
    case UpstreamOutage => c.OutageExplained(d)
    case Inconclusive => Says(d, Low, c.Unclear(w), map[])
    case _ => c.PathExplained(w, d)
  }

  /** What the response rules read. */
  ghost predicate ResponseFits(c: Case, in_: Input, w: AddrPort) {
    && in_.http == Some(HttpCheck.ResultOf(c.Fetched(w)))
    && (in_.speed.Some? && in_.speed.value.Some? ==> in_.speed.value == c.net.speed(w, c.baseline))
    && (in_.outage.Some? ==> in_.outage.value == c.net.outage)
    && (c.Accepted(c.Own(w)) && ServiceFailed(c.Fetched(w)) ==>
          (VerdictProofs.OutageConfirmed(in_) <==> c.OutageReported()))
  }

  ghost predicate ServiceFailed(x: HttpCheck.Exchange) {
    ServerFails(x) || Broken(x)
  }

  lemma ServerErrorReason(c: Case, in_: Input, w: AddrPort)
    requires c.cfg.Filled() && c.IsWorking(w) && ResponseFits(c, in_, w)
    requires c.Accepted(c.Own(w)) && ServerFails(c.Fetched(w))
    ensures Owed(c, w, ResponseDecision(in_, in_.http.value))
  {
  }

  lemma CutReason(c: Case, in_: Input, w: AddrPort)
    requires c.cfg.Filled() && ResponseFits(c, in_, w) && c.Accepted(c.Own(w)) && CutOff(c.Fetched(w))
    ensures Owed(c, w, ResponseDecision(in_, in_.http.value))
  {
  }

  lemma BrokenReason(c: Case, in_: Input, w: AddrPort)
    requires c.cfg.Filled() && ResponseFits(c, in_, w) && c.Accepted(c.Own(w))
    requires Broken(c.Fetched(w)) && !CutOff(c.Fetched(w))
    ensures Owed(c, w, ResponseDecision(in_, in_.http.value))
  {
  }

  lemma AnswerReason(c: Case, in_: Input, w: AddrPort)
    requires c.cfg.Filled() && ResponseFits(c, in_, w)
    requires !IsBlockPage(c.Fetched(w)) && !ServiceFailed(c.Fetched(w))
    ensures Owed(c, w, ResponseDecision(in_, in_.http.value))
  {
  }

  lemma ResponseReason(c: Case, in_: Input, w: AddrPort)
    requires c.cfg.Filled() && c.IsWorking(w) && ResponseFits(c, in_, w) && c.Accepted(c.Own(w))
    requires !IsBlockPage(c.Fetched(w))
    ensures Owed(c, w, ResponseDecision(in_, in_.http.value))
  {
    if ServerFails(c.Fetched(w)) {
      ServerErrorReason(c, in_, w);
    } else if CutOff(c.Fetched(w)) {
      CutReason(c, in_, w);
    } else if Broken(c.Fetched(w)) {
      BrokenReason(c, in_, w);
    } else {
      AnswerReason(c, in_, w);
    }
  }

  lemma CertificateReason(c: Case, in_: Input, w: AddrPort)
    requires c.cfg.Filled() && c.Own(w).Completed? && ResponseFits(c, in_, w)
    requires in_.issuers == Some(c.cfg.issuers)
    requires IsBlockPage(c.Fetched(w)) || c.Refused(c.Own(w)) || c.Inspected(c.Own(w))
    ensures Owed(c, w, HttpDecision(in_, TlsCheck.HandshakeOf(c.net.peer, w, c.t.host, c.t.host != "")))
  {
    ResponseIff(c.Fetched(w));
  }

  lemma HttpReason(c: Case, in_: Input, w: AddrPort)
    requires c.cfg.Filled() && c.IsWorking(w) && c.Own(w).Completed? && ResponseFits(c, in_, w)
    requires in_.issuers == Some(c.cfg.issuers)
    ensures Owed(c, w, HttpDecision(in_, TlsCheck.HandshakeOf(c.net.peer, w, c.t.host, c.t.host != "")))
  {
    if IsBlockPage(c.Fetched(w)) || c.Refused(c.Own(w)) || c.Inspected(c.Own(w)) {
      CertificateReason(c, in_, w);
    } else {
      OwnIff(c, w);
      ResponseIff(c.Fetched(w));
      ResponseReason(c, in_, w);
    }
  }

  lemma ResponseFromInput(c: Case, in_: Input, w: AddrPort)
    requires c.cfg.Filled() && Fits(c, in_) && c.IsWorking(w) && c.Own(w).Completed?
    ensures ResponseFits(c, in_, w)
  {
    OwnIff(c, w);
    ResponseIff(c.Fetched(w));
    OutageIff(c, in_);
  }

  lemma TlsReason(c: Case, in_: Input, w: AddrPort)
    requires c.cfg.Filled() && c.IsWorking(w) && in_.issuers == Some(c.cfg.issuers)
    requires c.Own(w).Completed? ==> ResponseFits(c, in_, w)
    ensures var tls := TlsCheck.CheckOf(c.net.peer, w, c.t.host, c.cfg.neutralSni);
      Owed(c, w, TlsDecision(in_, tls, map["ip" := IpArg(w.addr)]))
  {
    OwnIff(c, w);
    FilteredIff(c, w);
    if c.Own(w).Completed? {
      HttpReason(c, in_, w);
    }
  }

  // ------------------------------------------------- reasons of the dials

  lemma DialReason(c: Case, in_: Input)
    requires c.cfg.Filled() && TcpFits(c, in_.tcp) && in_.local == c.local && !c.Connected() && in_.tcp != []
    requires !c.Dns().unresolvable
    ensures c.Explained(PathDecision(in_, TcpCheck.SummaryOf(in_.tcp)).value)
  {
    FailuresIff(c, in_.tcp);
    ConnectedIff(c, in_.tcp);
    assert in_.tcp[0].addr == c.Nth(0);
  }

  lemma OwedIsExplained(c: Case, w: AddrPort, d: Decision)
    requires c.cfg.Filled() && c.IsWorking(w) && c.Connected() && !c.Dns().unresolvable && Owed(c, w, d)
    ensures c.Explained(d)
  {
  }

  lemma ConnectedReason(c: Case, in_: Input, w: AddrPort)
    requires c.cfg.Filled() && Fits(c, in_) && c.IsWorking(w) && !c.Dns().unresolvable
    ensures c.Explained(PathDecision(in_, TcpCheck.SummaryOf(in_.tcp)).value)
  {
    WorkingIff(c, in_.tcp);
    if c.Own(w).Completed? {
      ResponseFromInput(c, in_, w);
    }
    TlsReason(c, in_, w);
    OwedIsExplained(c, w, PathDecision(in_, TcpCheck.SummaryOf(in_.tcp)).value);
  }

  lemma PathReason(c: Case, in_: Input)
    requires c.cfg.Filled() && Fits(c, in_) && in_.tcp != []
    ensures c.Explained(PathDecision(in_, TcpCheck.SummaryOf(in_.tcp)).value)
  {
    if w :| c.IsWorking(w) {
      ConnectedReason(c, in_, w);
    } else {
      DialReason(c, in_);
    }
  }

  // ------------------------------------------------------- the theorem

  /** What is listed beside a finding plays no part in its reason. */
  lemma BesideIsApart(c: Case, d: Decision, also: seq<Verdict>)
    requires c.cfg.Filled() && c.Explained(d)
    ensures c.Explained(d.(also := also))
  {
  }

  lemma LocalReason(c: Case, in_: Input)
    requires c.cfg.Filled() && in_.local == c.local && VerdictProofs.LocalDown(in_)
    ensures c.Explained(Decide(in_)) && Decide(in_).also == []
  {
  }

  lemma NoPathReason(c: Case, in_: Input)
    requires c.cfg.Filled() && Fits(c, in_) && DnsFits(c, in_) && in_.tcp == []
    ensures c.Explained(Combine(in_, DnsDecision(in_), None))
  {
    DnsVerdict(c, in_);
    OutageIff(c, in_);
    if DnsDecision(in_).Some? {
      DnsReason(c, in_);
    }
  }

  lemma BothReason(c: Case, in_: Input, path: Decision)
    requires c.cfg.Filled() && DnsFits(c, in_) && c.Explained(path)
    ensures c.Explained(Combine(in_, DnsDecision(in_), Some(path)))
  {
    if DnsDecision(in_).Some? {
      DnsReason(c, in_);
      BesideIsApart(c, path, path.also + [DnsDecision(in_).value.verdict]);
    }
  }

  lemma DecisionReason(c: Case, in_: Input)
    requires c.cfg.Filled() && Fits(c, in_)
    ensures c.Explained(Decide(in_))
  {
    VerdictProofs.LocalIff(in_);
    MismatchIff(c, in_);
    if VerdictProofs.LocalDown(in_) {
      LocalReason(c, in_);
    } else if in_.tcp == [] {
      NoPathReason(c, in_);
    } else {
      PathReason(c, in_);
      BothReason(c, in_, PathDecision(in_, TcpCheck.SummaryOf(in_.tcp)).value);
    }
  }

  /** A DNS problem is listed beside a path at fault, and nothing else is. */
  lemma AlsoIff(c: Case, in_: Input)
    requires c.cfg.Filled() && Fits(c, in_)
    ensures Decide(in_).also == c.Beside()
  {
    LocalIff(c, in_);
    VerdictProofs.LocalIff(in_);
    VerdictProofs.DnsDecisionShape(in_);
    VerdictProofs.PathDecisionShape(in_);
    MismatchIff(c, in_);
    DnsVerdict(c, in_);
    PathFaultIff(c, in_);
    if in_.tcp == [] {
      VerdictProofs.NoPathNoFault(in_);
    } else {
      VerdictProofs.FaultIffDefinite(in_);
    }
  }

  lemma PathFaultIff(c: Case, in_: Input)
    requires c.cfg.Filled() && Fits(c, in_)
    ensures VerdictProofs.PathAtFault(in_) <==> c.SomethingAtFault()
  {
    forall v ensures VerdictProofs.FoundOnPath(in_, v) <==> c.AtFault(v) {
      FaultIff(c, in_, v);
    }
  }

  /** A diagnosis gives the deserved verdict with the confidence and the reason that go with it, and
      lists the DNS problem, if any, beside a path at fault. */
  lemma DecisionOnTheWire(c: Case, intercept: Option<bool>)
    requires c.cfg.Filled() && (c.hijacked <==> intercept == Some(true))
    ensures var d := P.DecideRun(c.cfg, RunIn(c), c.local, intercept).decision;
      c.Deserves(d.verdict) && c.Explained(d) && d.also == c.Beside()
  {
    var in_ := InputIn(c, intercept);
    InputFits(c, intercept);
    VerdictOnTheWire(c, intercept, Decide(in_).verdict);
    DecisionReason(c, in_);
    AlsoIff(c, in_);
  }
}
