// The rule engine: one primary verdict per target from everything measured
// (internal/verdict).
module VerdictEngine {
  import opened Base
  import opened Model
  import DnsCheck
  import TcpCheck
  import TlsCheck
  import HttpCheck
  import Outage
  import Speed
  import LocalNet
  import NetErrors

  datatype Arg =
    | IpArg(ip: Addr)
    | TextArg(text: string)
    | StatusArg(status: int)
    | FailureArg(failure: DnsCheck.Failure)

  datatype Reason = Reason(key: string, args: map<string, Arg>)

  datatype Decision = Decision(verdict: Verdict, confidence: Confidence, reason: Reason, also: seq<Verdict>)

  /** The inspection products whose issuer strings are known. */
  type IssuerTable = string -> Option<string>

  /** Everything measured for one target; None means the layer did not run. */
  datatype Input = Input(
    local: Option<LocalNet.Result>,
    intercept: Option<bool>,
    dns: DnsCheck.Analysis,
    tcp: seq<TcpCheck.Result>,
    tls: Option<TlsCheck.Result>,
    verify: Option<TlsCheck.Handshake>,
    http: Option<HttpCheck.Result>,
    outage: Option<Outage.Result>,
    speed: Option<Option<Speed.Throttling>>,
    issuers: Option<IssuerTable>
  )

  function Conclude(v: Verdict, c: Confidence, key: string, args: map<string, Arg> := map[]): Decision {
    Decision(v, c, Reason(key, args), [])
  }

  function LocalKey(why: LocalNet.DownReason): string {
    match why
    case NoInterface => "local.no_interface"
    case NoRoute => "local.no_route"
    case UnreachableBaseline => "local.unreachable"
  }

  function Decide(in_: Input): Decision {
    var sum := TcpCheck.SummaryOf(in_.tcp);
    if in_.local.Some? && sum.working.None? && in_.local.value.Down().Some? then
      var why := in_.local.value.Down().value;
      Conclude(LocalNetworkDown, if why.UnreachableBaseline? then Medium else High, LocalKey(why))
    else
      Combine(in_, DnsDecision(in_), PathDecision(in_, sum))
  }

  /** Weighs the path against DNS. */
  function Combine(in_: Input, dnsD: Option<Decision>, pathD: Option<Decision>): Decision {
    if pathD.None? then
      if dnsD.Some? then dnsD.value
      else if in_.dns.dropped then Conclude(DnsIntercepted, Medium, "dns.dropped")
      else if in_.dns.unresolvable && in_.outage.Some? && in_.outage.value.Confirmed() then
        OutageDecision(in_.outage.value)
      else if in_.dns.unresolvable && in_.dns.dohUnavailable then
        Conclude(Inconclusive, Low, "dns.unresolvable_nodoh")
      else if in_.dns.unresolvable then Conclude(Inconclusive, Low, "dns.unresolvable")
      else Conclude(Inconclusive, Low, "inconclusive")
    else if dnsD.None? then pathD.value
    else if pathD.value.verdict.OK? || pathD.value.verdict.Inconclusive? then dnsD.value
    else pathD.value.(also := pathD.value.also + [dnsD.value.verdict])
  }

  predicate Intercepted(in_: Input) {
    in_.intercept == Some(true)
  }

  /** A suspect address was checked and does not serve the host. */
  predicate Mismatch(in_: Input) {
    in_.dns.suspects != [] && in_.verify.Some? && SuspectInvalid(in_)
  }

  predicate SuspectInvalid(in_: Input)
    requires in_.verify.Some?
  {
    var v := in_.verify.value;
    if v.outcome.OK? then false
    else if v.Reached() then true
    else in_.tls.Some? && in_.tls.value.own.outcome.OK?
  }

  function First(a: seq<Addr>, b: seq<Addr>, c: seq<Addr>): map<string, Arg> {
    if a != [] then map["ip" := IpArg(a[0])]
    else if b != [] then map["ip" := IpArg(b[0])]
    else if c != [] then map["ip" := IpArg(c[0])]
    else map["ip" := TextArg("")]
  }

  /** A DNS problem, or None when DNS looks healthy. */
  function DnsDecision(in_: Input): Option<Decision> {
    var a := in_.dns;
    var plain := if a.referenceKind == DnsCheck.Doh then "" else "_plain";
    if a.Poisoned() || Mismatch(in_) then
      var ip := First(a.blockIPs, a.bogons, a.suspects);
      if Intercepted(in_) || a.injectedPublic then Some(Conclude(DnsIntercepted, High, "dns.intercepted", ip))
      else if a.blockIPs != [] then Some(Conclude(DnsPoisoned, High, "dns.block_ip", ip))
      else if a.bogons != [] then Some(Conclude(DnsPoisoned, High, "dns.bogon" + plain, ip))
      else Some(Conclude(DnsPoisoned, Medium, "dns.mismatch", ip))
    else
      match a.systemFailure
      case NoFailure => None
      case FailNxDomain => Some(Conclude(DnsPoisoned, Medium, "dns.nxdomain" + plain))
      case FailNoAnswer => Some(Conclude(DnsPoisoned, Medium, "dns.nxdomain" + plain))
      case _ => Some(Conclude(DnsPoisoned, Low, "dns.failed" + plain, map["error" := FailureArg(a.systemFailure)]))
  }

  /** The connection to the verified addresses, or None when none was attempted. */
  function PathDecision(in_: Input, sum: TcpCheck.Summary): Option<Decision> {
    if in_.tcp == [] then None
    else if sum.working.None? then
      var ip := map["ip" := IpArg(in_.tcp[0].addr.addr)];
      if sum.anyRejected then Some(Conclude(ConnectionReset, Medium, "tcp.reset", ip))
      else if sum.allTimeout then
        var baselineOK := in_.local.Some? && in_.local.value.AnyBaseline();
        Some(Conclude(IpBlocked, if baselineOK then High else Medium, "tcp.timeout", ip))
      else if sum.allUnreachable then Some(Conclude(IpBlocked, Medium, "tcp.unreachable", ip))
      else Some(Conclude(Inconclusive, Low, "inconclusive"))
    else if in_.tls.None? then Some(Conclude(OK, Low, "ok.tls"))
    else Some(TlsDecision(in_, in_.tls.value, map["ip" := IpArg(sum.working.value.addr.addr)]))
  }

  /** The TLS rules of the path decision. */
  function TlsDecision(in_: Input, tls: TlsCheck.Result, ip: map<string, Arg>): Decision {
    var own := tls.own;
    if tls.SniFiltered() then
      Conclude(SniFiltered, High, if own.outcome.Timeout? then "tls.sni_timeout" else "tls.sni_reset")
    else if own.outcome.Timeout? then Conclude(IpBlocked, Medium, "tls.timeout", ip)
    else if own.Blocked() then Conclude(ConnectionReset, Medium, "tls.reset", ip)
    else if own.outcome.Alert? then Conclude(Inconclusive, Low, "tls.alert")
    else if !own.outcome.OK? && !own.outcome.CertInvalid? then Conclude(Inconclusive, Low, "inconclusive")
    else HttpDecision(in_, own)
  }

  /** The certificate and HTTP rules of the path decision. */
  function HttpDecision(in_: Input, own: TlsCheck.Handshake): Decision {
    if in_.http.Some? && in_.http.value.class_.BlockPage? then
      Conclude(BlockPage, High, "http.block_page", map["signature" := TextArg(in_.http.value.signature)])
    else if own.outcome.CertInvalid? then
      var issuer := map["issuer" := TextArg(own.issuerName)];
      match own.certProblem
      case Some(UnknownAuthority) => Conclude(TlsIntercepted, High, "tls.untrusted", issuer)
      case Some(Hostname) => Conclude(TlsIntercepted, Medium, "tls.hostname", issuer)
      case Some(Expired) => Conclude(TlsIntercepted, Low, "tls.expired")
      case _ => Conclude(TlsIntercepted, Medium, "tls.untrusted", issuer)
    else if in_.issuers.Some? && in_.issuers.value(own.issuer).Some? then
      Conclude(TlsIntercepted, Medium, "tls.middlebox", map["issuer" := TextArg(in_.issuers.value(own.issuer).value)])
    else if in_.http.None? then Conclude(OK, Medium, "ok.tls")
    else ResponseDecision(in_, in_.http.value)
  }

  /** The response and speed rules of the path decision. */
  function ResponseDecision(in_: Input, h: HttpCheck.Result): Decision {
    var confirmed := in_.outage.Some? && in_.outage.value.Confirmed();
    match h.class_
    case GeoBlock =>
      Conclude(ProviderGeoBlock, High, "http.geo_block",
               map["status" := StatusArg(h.status), "signature" := TextArg(h.signature)])
    case Legal => Conclude(ProviderGeoBlock, Medium, "http.451")
    case ServerError =>
      if confirmed then OutageDecision(in_.outage.value)
      else Conclude(UpstreamOutage, Medium, "http.5xx", map["status" := StatusArg(h.status)])
    case Failed =>
      if h.errKind == Some(NetErrors.Reset) || h.errKind == Some(NetErrors.Eof) then
        Conclude(ConnectionReset, Medium, "http.reset")
      else if confirmed then OutageDecision(in_.outage.value)
      else if h.errKind == Some(NetErrors.Timeout) then Conclude(Inconclusive, Low, "http.timeout")
      else Conclude(Inconclusive, Low, "http.error")
    case _ =>
      if in_.speed.Some? && in_.speed.value.Some? then
        Conclude(Throttled, Medium, if in_.speed.value.value.Handshake? then "speed.handshake" else "speed.throughput")
      else Conclude(OK, High, "ok.http", map["status" := StatusArg(h.status)])
  }

  function OutageDecision(o: Outage.Result): Decision {
    Conclude(UpstreamOutage, if o.Severe() then High else Medium, "outage.confirmed",
             map["description" := TextArg(o.description)])
  }
}
