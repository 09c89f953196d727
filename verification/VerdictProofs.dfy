// Properties of the rule engine over every input, whether or not the pipeline can build it.
module VerdictProofs {
  import opened Base
  import opened Model
  import opened VerdictEngine
  import TcpCheck
  import DnsCheck
  import TlsCheck
  import HttpCheck
  import LocalNet
  import NetErrors

  predicate IsDnsVerdict(v: Verdict) {
    v.DnsPoisoned? || v.DnsIntercepted?
  }

  lemma DnsDecisionShape(in_: Input)
    ensures var d := DnsDecision(in_);
      && (d.Some? ==> IsDnsVerdict(d.value.verdict) && d.value.also == [])
      && (d.Some? <==> in_.dns.Poisoned() || Mismatch(in_) || in_.dns.systemFailure != DnsCheck.NoFailure)
  {
  }

  lemma PathDecisionShape(in_: Input)
    ensures var d := PathDecision(in_, TcpCheck.SummaryOf(in_.tcp));
      && (d.None? <==> in_.tcp == [])
      && (d.Some? ==> !IsDnsVerdict(d.value.verdict) && !d.value.verdict.LocalNetworkDown? && d.value.also == [])
  {
  }

  /** At most one secondary finding: a DNS problem beside a definite path problem. */
  lemma AlsoShape(in_: Input)
    ensures var d := Decide(in_);
      && |d.also| <= 1
      && (d.also != [] ==>
            && IsDnsVerdict(d.also[0]) && !IsDnsVerdict(d.verdict)
            && !d.verdict.OK? && !d.verdict.Inconclusive? && !d.verdict.LocalNetworkDown?)
  {
    DnsDecisionShape(in_);
    PathDecisionShape(in_);
  }

  /** A DNS problem is never dropped: it is the verdict, or listed beside it. */
  lemma DnsProblemIsReported(in_: Input)
    requires !Decide(in_).verdict.LocalNetworkDown?
    requires in_.dns.Poisoned() || Mismatch(in_) || in_.dns.systemFailure != DnsCheck.NoFailure
    ensures var d := Decide(in_); IsDnsVerdict(d.verdict) || (|d.also| == 1 && IsDnsVerdict(d.also[0]))
  {
    DnsDecisionShape(in_);
    PathDecisionShape(in_);
  }

  /** The local network is blamed exactly when it is down and nothing connected. */
  lemma LocalDownIff(in_: Input)
    ensures Decide(in_).verdict.LocalNetworkDown? <==>
      in_.local.Some? && in_.local.value.Down().Some? && forall r :: r in in_.tcp ==> !r.outcome.OK?
  {
    DnsDecisionShape(in_);
    PathDecisionShape(in_);
  }

  /** The decision with every DNS_POISONED turned into DNS_INTERCEPTED. */
  function Upgrade(v: Verdict): Verdict {
    if v.DnsPoisoned? then DnsIntercepted else v
  }

  /** Interception evidence only upgrades proven poisoning; it never touches the path verdict. */
  lemma InterceptionOnlyUpgrades(in_: Input, quiet: Option<bool>)
    requires quiet != Some(true)
    ensures var off, on := Decide(in_.(intercept := quiet)), Decide(in_.(intercept := Some(true)));
      if (in_.dns.Poisoned() || Mismatch(in_)) && !off.verdict.LocalNetworkDown? then
        && on.verdict == Upgrade(off.verdict)
        && |on.also| == |off.also| && (off.also != [] ==> on.also[0] == Upgrade(off.also[0]))
        && (on.verdict.DnsIntercepted? || on.also == [DnsIntercepted])
        && (off.also != [] ==> on.confidence == off.confidence && on.reason == off.reason)
        && (off.also == [] ==> on.confidence == High && on.reason.key == "dns.intercepted")
      else
        on == off
  {
    var off, on := in_.(intercept := quiet), in_.(intercept := Some(true));
    assert Mismatch(off) == Mismatch(on) == Mismatch(in_);
    assert PathDecision(off, TcpCheck.SummaryOf(in_.tcp)) == PathDecision(on, TcpCheck.SummaryOf(in_.tcp)) by {
      PathIgnoresIntercept(in_, quiet);
      PathIgnoresIntercept(in_, Some(true));
    }
    DnsDecisionShape(off);
    DnsDecisionShape(on);
    PathDecisionShape(in_);
    PathDecisionShape(off);
  }

  lemma PathIgnoresIntercept(in_: Input, x: Option<bool>)
    ensures PathDecision(in_.(intercept := x), TcpCheck.SummaryOf(in_.tcp))
      == PathDecision(in_, TcpCheck.SummaryOf(in_.tcp))
  {
  }

  // ------------------------------------------- inputs the pipeline builds

  /** How the layers of an input depend on one another when they ran in order. */
  ghost predicate Staged(in_: Input) {
    var working := TcpCheck.SummaryOf(in_.tcp).working;
    && in_.issuers.Some?
    && (working.Some? <==> in_.tls.Some?)
    && (in_.http.Some? <==> in_.tls.Some? && (in_.tls.value.own.outcome.OK? || in_.tls.value.own.outcome.CertInvalid?))
    && (in_.speed.Some? ==> in_.http.Some? && in_.http.value.class_.OK?)
    && (in_.verify.Some? <==> in_.dns.suspects != [])
    && (in_.tcp == [] ==> in_.dns.Poisoned() || in_.dns.unresolvable)
    && (in_.dns.dropped ==> in_.dns.unresolvable)
    && (in_.dns.unresolvable ==> in_.tcp == [] && !in_.dns.Poisoned() && in_.dns.suspects == [])
    && (forall r :: r in in_.tcp ==> r.addr.addr in in_.dns.reference)
  }

  /** The suspect address, if any, was shown to serve the host. */
  ghost predicate SuspectsCleared(in_: Input) {
    in_.dns.suspects == [] || (in_.verify.Some? && in_.verify.value.outcome.OK?)
  }

  ghost predicate DnsClean(in_: Input) {
    !in_.dns.Poisoned() && in_.dns.systemFailure == DnsCheck.NoFailure
  }

  lemma ResponseOkIff(in_: Input, h: HttpCheck.Result)
    requires !h.class_.BlockPage?
    ensures var d := ResponseDecision(in_, h);
      && (d.verdict.OK? <==> h.class_.OK? && !(in_.speed.Some? && in_.speed.value.Some?))
      && (d.verdict.OK? ==> d.confidence == High && d.reason.key == "ok.http")
      && d.reason.key != "ok.tls" && d.reason.key != "inconclusive" && d.also == []
  {
  }

  lemma PathOkIff(in_: Input)
    requires Staged(in_) && in_.tcp != []
    ensures var d := PathDecision(in_, TcpCheck.SummaryOf(in_.tcp)).value;
      && (d.verdict.OK? <==>
            && in_.tls.Some? && in_.tls.value.own.outcome.OK? && in_.issuers.value(in_.tls.value.own.issuer).None?
            && in_.http.value.class_.OK? && !(in_.speed.Some? && in_.speed.value.Some?))
      && (d.verdict.OK? ==> d.confidence == High && d.reason.key == "ok.http")
      && d.reason.key != "ok.tls"
  {
    if in_.http.Some? && !in_.http.value.class_.BlockPage? {
      ResponseOkIff(in_, in_.http.value);
    }
  }

  /** OK is given exactly when every layer that ran found the service in order. */
  lemma OkIff(in_: Input)
    requires Staged(in_)
    ensures var d := Decide(in_);
      && (d.verdict.OK? <==>
            && in_.tls.Some? && in_.tls.value.own.outcome.OK? && in_.issuers.value(in_.tls.value.own.issuer).None?
            && in_.http.value.class_.OK? && !(in_.speed.Some? && in_.speed.value.Some?)
            && DnsClean(in_) && SuspectsCleared(in_))
      && (d.verdict.OK? ==> d.confidence == High && d.also == [] && d.reason.key == "ok.http")
  {
    DnsDecisionShape(in_);
    PathDecisionShape(in_);
    if in_.tcp != [] {
      PathOkIff(in_);
    }
  }

  lemma DnsKeys(in_: Input)
    requires DnsDecision(in_).Some?
    ensures DnsDecision(in_).value.reason.key[..4] == "dns."
  {
  }

  /** The fallbacks for inputs the pipeline never builds are never taken. */
  lemma FallbacksUnreachable(in_: Input)
    requires Staged(in_)
    ensures Decide(in_).reason.key != "ok.tls"
    ensures in_.tcp == [] ==> Decide(in_).reason.key != "inconclusive"
  {
    DnsDecisionShape(in_);
    PathDecisionShape(in_);
    if DnsDecision(in_).Some? {
      DnsKeys(in_);
      assert "ok.tls"[..4] == "ok.t" && "inconclusive"[..4] == "inco";
    }
    if in_.tcp != [] {
      PathOkIff(in_);
    }
  }

  // ------------------------------------------------- evidence per verdict

  ghost predicate Connected(in_: Input) {
    exists r :: r in in_.tcp && r.outcome.OK?
  }

  ghost predicate LocalDown(in_: Input) {
    in_.local.Some? && in_.local.value.Down().Some? && !Connected(in_)
  }

  ghost predicate OutageConfirmed(in_: Input) {
    in_.outage.Some? && in_.outage.value.Confirmed()
  }

  ghost predicate KnownInspection(in_: Input, own: TlsCheck.Handshake) {
    in_.issuers.Some? && in_.issuers.value(own.issuer).Some?
  }

  /** The request went over a channel whose certificate is accepted and not an inspection product's. */
  ghost predicate Validated(in_: Input) {
    && in_.tls.Some? && in_.http.Some?
    && in_.tls.value.own.outcome.OK? && !KnownInspection(in_, in_.tls.value.own)
  }

  /** The connection carrying the response was cut. */
  predicate Cut(h: HttpCheck.Result) {
    h.class_.Failed? && (h.errKind == Some(NetErrors.Reset) || h.errKind == Some(NetErrors.Eof))
  }

  /** What the layers on the verified path saw when it, and not DNS, is to blame. */
  ghost predicate FoundOnPath(in_: Input, v: Verdict) {
    match v
    case IpBlocked =>
      || (in_.tcp != []
          && ((forall r :: r in in_.tcp ==> r.outcome.Timeout?) || forall r :: r in in_.tcp ==> r.outcome.Unreachable?))
      || (in_.tls.Some? && in_.tls.value.own.outcome.Timeout? && !in_.tls.value.SniFiltered())
    case ConnectionReset =>
      || (!Connected(in_) && exists r :: r in in_.tcp && r.Rejected())
      || (in_.tls.Some? && (in_.tls.value.own.outcome.Reset? || in_.tls.value.own.outcome.Eof?)
          && !in_.tls.value.SniFiltered())
      || (Validated(in_) && Cut(in_.http.value))
    case SniFiltered => in_.tls.Some? && in_.tls.value.SniFiltered()
    case _ =>
      && in_.http.Some?
      && FoundInResponse(in_, in_.tls.Some? && in_.tls.value.own.outcome.CertInvalid?, in_.http.value, v)
  }

  ghost predicate FoundInResponse(in_: Input, badCert: bool, h: HttpCheck.Result, v: Verdict) {
    match v
    case BlockPage => h.class_.BlockPage?
    case TlsIntercepted =>
      !h.class_.BlockPage? && (badCert || (in_.tls.Some? && KnownInspection(in_, in_.tls.value.own)))
    case ProviderGeoBlock => Validated(in_) && (h.class_.GeoBlock? || h.class_.Legal?)
    case Throttled => Validated(in_) && h.class_.OK? && in_.speed.Some? && in_.speed.value.Some?
    case UpstreamOutage =>
      Validated(in_) && (h.class_.ServerError? || (h.class_.Failed? && !Cut(h) && OutageConfirmed(in_)))
    case _ => false
  }

  lemma ResponseFinds(in_: Input, v: Verdict)
    requires Staged(in_) && in_.http.Some?
    ensures var d := HttpDecision(in_, in_.tls.value.own).verdict;
      FoundInResponse(in_, in_.tls.value.own.outcome.CertInvalid?, in_.http.value, v)
        || (v.ConnectionReset? && Validated(in_) && Cut(in_.http.value))
      <==> d == v && !v.OK? && !v.Inconclusive?
  {
  }

  lemma UnconnectedFinds(in_: Input, v: Verdict)
    requires Staged(in_) && in_.tcp != [] && in_.tls.None?
    ensures FoundOnPath(in_, v) <==>
      PathDecision(in_, TcpCheck.SummaryOf(in_.tcp)).value.verdict == v && !v.OK? && !v.Inconclusive?
  {
    assert in_.tcp[0] in in_.tcp;
  }

  lemma ConnectedFinds(in_: Input, v: Verdict)
    requires Staged(in_) && in_.tls.Some?
    ensures in_.tcp != []
    ensures FoundOnPath(in_, v) <==>
      PathDecision(in_, TcpCheck.SummaryOf(in_.tcp)).value.verdict == v && !v.OK? && !v.Inconclusive?
  {
    if in_.http.Some? {
      ResponseFinds(in_, v);
    }
  }

  /** The path decision is definite exactly when the path was found at fault. */
  lemma PathFinds(in_: Input, v: Verdict)
    requires Staged(in_) && in_.tcp != []
    ensures FoundOnPath(in_, v) <==>
      PathDecision(in_, TcpCheck.SummaryOf(in_.tcp)).value.verdict == v && !v.OK? && !v.Inconclusive?
  {
    if in_.tls.Some? {
      ConnectedFinds(in_, v);
    } else {
      UnconnectedFinds(in_, v);
    }
  }

  ghost predicate PathAtFault(in_: Input) {
    exists v :: FoundOnPath(in_, v)
  }

  /** The plain answers lied, or the address they gave does not serve the host. */
  ghost predicate DnsLies(in_: Input) {
    in_.dns.Poisoned() || Mismatch(in_)
  }

  ghost predicate AllInOrder(in_: Input) {
    Validated(in_) && in_.http.value.class_.OK? && !(in_.speed.Some? && in_.speed.value.Some?)
  }

  /** Exactly what was measured whenever a verdict is given. */
  ghost predicate Merits(in_: Input, v: Verdict) {
    if LocalDown(in_) then v.LocalNetworkDown?
    else
      match v
      case LocalNetworkDown => false
      case DnsIntercepted =>
        && !PathAtFault(in_)
        && if DnsLies(in_) then Intercepted(in_) || in_.dns.injectedPublic
           else in_.dns.systemFailure == DnsCheck.NoFailure && in_.dns.dropped
      case DnsPoisoned =>
        && !PathAtFault(in_)
        && if DnsLies(in_) then !Intercepted(in_) && !in_.dns.injectedPublic
           else in_.dns.systemFailure != DnsCheck.NoFailure
      case OK => AllInOrder(in_) && DnsClean(in_) && !Mismatch(in_)
      case Inconclusive =>
        && !PathAtFault(in_) && !AllInOrder(in_) && DnsClean(in_) && !Mismatch(in_) && !in_.dns.dropped
        && !(in_.dns.unresolvable && OutageConfirmed(in_))
      case UpstreamOutage =>
        || FoundOnPath(in_, v)
        || (in_.dns.unresolvable && DnsClean(in_) && !in_.dns.dropped && OutageConfirmed(in_))
      case _ => FoundOnPath(in_, v)
  }

  lemma NoPathNoFault(in_: Input)
    requires Staged(in_) && in_.tcp == []
    ensures !PathAtFault(in_) && !AllInOrder(in_)
  {
  }

  lemma FaultIffDefinite(in_: Input)
    requires Staged(in_) && in_.tcp != []
    ensures var v := PathDecision(in_, TcpCheck.SummaryOf(in_.tcp)).value.verdict;
      && (PathAtFault(in_) <==> !v.OK? && !v.Inconclusive?)
      && (AllInOrder(in_) <==> v.OK?)
  {
    var v := PathDecision(in_, TcpCheck.SummaryOf(in_.tcp)).value.verdict;
    PathFinds(in_, v);
    if w :| FoundOnPath(in_, w) {
      PathFinds(in_, w);
    }
    PathOkIff(in_);
  }

  lemma LocalIff(in_: Input)
    requires Staged(in_)
    ensures LocalDown(in_) ==> Decide(in_).verdict.LocalNetworkDown?
    ensures !LocalDown(in_) ==>
      Decide(in_) == Combine(in_, DnsDecision(in_), PathDecision(in_, TcpCheck.SummaryOf(in_.tcp)))
  {
  }

  lemma CombineWithoutPath(in_: Input, v: Verdict)
    requires Staged(in_) && in_.tcp == [] && !LocalDown(in_)
    ensures Combine(in_, DnsDecision(in_), None).verdict == v <==> Merits(in_, v)
  {
    NoPathNoFault(in_);
    assert !FoundOnPath(in_, v);
  }

  lemma CombineWithPath(in_: Input, path: Decision, v: Verdict)
    requires Staged(in_) && in_.tcp != [] && !LocalDown(in_)
    requires PathDecision(in_, TcpCheck.SummaryOf(in_.tcp)) == Some(path)
    ensures Combine(in_, DnsDecision(in_), Some(path)).verdict == v <==> Merits(in_, v)
  {
    DnsDecisionShape(in_);
    PathDecisionShape(in_);
    FaultIffDefinite(in_);
    PathFinds(in_, v);
  }

  /** A verdict is given exactly when the measurements merit it; every input merits one verdict. */
  lemma VerdictIff(in_: Input, v: Verdict)
    requires Staged(in_)
    ensures Decide(in_).verdict == v <==> Merits(in_, v)
  {
    LocalIff(in_);
    if !LocalDown(in_) {
      if in_.tcp == [] {
        CombineWithoutPath(in_, v);
      } else {
        CombineWithPath(in_, PathDecision(in_, TcpCheck.SummaryOf(in_.tcp)).value, v);
      }
    }
  }

  /** The findings that leave no doubt. */
  ghost predicate Certain(in_: Input, v: Verdict) {
    match v
    case LocalNetworkDown => in_.local.Some? && in_.local.value.Down() != Some(LocalNet.UnreachableBaseline)
    case DnsIntercepted => DnsLies(in_)
    case DnsPoisoned => in_.dns.Poisoned()
    case IpBlocked =>
      && (forall r :: r in in_.tcp ==> r.outcome.Timeout?)
      && in_.local.Some? && in_.local.value.AnyBaseline()
    case TlsIntercepted =>
      && in_.tls.Some? && in_.tls.value.own.outcome.CertInvalid?
      && in_.tls.value.own.certProblem == Some(TlsCheck.UnknownAuthority)
    case ProviderGeoBlock => in_.http.Some? && in_.http.value.class_.GeoBlock?
    case UpstreamOutage => in_.outage.Some? && in_.outage.value.Severe()
    case SniFiltered => true
    case BlockPage => true
    case OK => true
    case ConnectionReset => false
    case Throttled => false
    case Inconclusive => false
  }

  lemma UnconnectedCertain(in_: Input)
    requires Staged(in_) && in_.tcp != [] && in_.tls.None?
    ensures var d := PathDecision(in_, TcpCheck.SummaryOf(in_.tcp)).value;
      d.confidence == High <==> Certain(in_, d.verdict)
  {
    assert in_.tcp[0] in in_.tcp;
  }

  lemma ResponseCertain(in_: Input)
    requires Staged(in_) && in_.http.Some?
    ensures var d := HttpDecision(in_, in_.tls.value.own);
      d.confidence == High <==> Certain(in_, d.verdict)
  {
  }

  lemma ConnectedCertain(in_: Input)
    requires Staged(in_) && in_.tls.Some?
    ensures var d := PathDecision(in_, TcpCheck.SummaryOf(in_.tcp)).value;
      d.confidence == High <==> Certain(in_, d.verdict)
  {
    if in_.http.Some? {
      ResponseCertain(in_);
    }
  }

  /** High confidence is claimed exactly for the findings that leave no doubt, and Inconclusive is Low. */
  lemma ConfidenceIff(in_: Input)
    requires Staged(in_)
    ensures var d := Decide(in_);
      && (d.confidence == High <==> Certain(in_, d.verdict))
      && (d.verdict.Inconclusive? ==> d.confidence == Low)
  {
    DnsDecisionShape(in_);
    PathDecisionShape(in_);
    LocalIff(in_);
    if in_.tls.Some? {
      ConnectedCertain(in_);
    } else if in_.tcp != [] {
      UnconnectedCertain(in_);
    }
  }

  // ------------------------------------------------- addresses in reasons

  ghost predicate NamesOneOf(d: Decision, addrs: seq<Addr>) {
    "ip" in d.reason.args ==> d.reason.args["ip"].IpArg? && d.reason.args["ip"].ip in addrs
  }

  lemma DnsReasonNames(in_: Input)
    requires Staged(in_) && DnsDecision(in_).Some?
    ensures NamesOneOf(DnsDecision(in_).value, in_.dns.blockIPs + in_.dns.bogons + in_.dns.suspects)
  {
    var all := in_.dns.blockIPs + in_.dns.bogons + in_.dns.suspects;
    assert all != [] ==> all[0] == if in_.dns.blockIPs != [] then in_.dns.blockIPs[0]
      else if in_.dns.bogons != [] then in_.dns.bogons[0] else in_.dns.suspects[0];
  }

  lemma HttpReasonNames(in_: Input, own: TlsCheck.Handshake)
    ensures "ip" !in HttpDecision(in_, own).reason.args
  {
  }

  lemma PathReasonNames(in_: Input)
    requires Staged(in_) && in_.tcp != []
    ensures NamesOneOf(PathDecision(in_, TcpCheck.SummaryOf(in_.tcp)).value, in_.dns.reference)
  {
    assert in_.tcp[0] in in_.tcp;
    if in_.tls.Some? {
      HttpReasonNames(in_, in_.tls.value.own);
    }
  }

  /** Every address a reason names was seen in an answer: reference, bad or suspect. */
  lemma ReasonNamesSeenAddress(in_: Input)
    requires Staged(in_)
    ensures NamesOneOf(Decide(in_), in_.dns.blockIPs + in_.dns.bogons + in_.dns.suspects)
      || NamesOneOf(Decide(in_), in_.dns.reference)
  {
    DnsDecisionShape(in_);
    PathDecisionShape(in_);
    if DnsDecision(in_).Some? {
      DnsReasonNames(in_);
    }
    if in_.tcp != [] {
      PathReasonNames(in_);
    }
  }
}
