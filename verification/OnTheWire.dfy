// What a verdict says about the network, with nothing in between: every verdict of a
// finished diagnosis, in terms of what dialing, handshakes, responses and resolvers gave.
module OnTheWire {
  import opened Base
  import opened Model
  import DnsCheck
  import HttpCheck
  import LocalNet
  import NetErrors
  import Pipeline
  import Speed
  import TlsCheck
  import opened V = VerdictEngine

  /** Everything the diagnosis of one target depends on. */
  datatype Case = Case(
    cfg: Pipeline.Config,
    t: Target,
    net: Pipeline.Network,
    control: DnsCheck.Lookups,
    baseline: Speed.Measurement,
    local: Option<LocalNet.Result>,
    hijacked: bool
  ) {
    /** What the resolvers' answers amount to. */
    ghost function Dns(): DnsCheck.Analysis {
      DnsCheck.AnalysisOf(cfg.tables, net.lookups)
    }

    ghost function At(a: Addr): AddrPort {
      AddrPort(a, cfg.port % 65536)
    }

    // ------------------------------------------------------- connecting

    /** How many reference addresses are dialed. */
    ghost function Width(): nat
      requires cfg.maxAddrs >= 0
    {
      if |Dns().reference| < cfg.maxAddrs then |Dns().reference| else cfg.maxAddrs
    }

    /** The k-th address that is dialed. */
    ghost function Nth(k: nat): AddrPort
      requires cfg.maxAddrs >= 0 && k < Width()
    {
      At(Dns().reference[k])
    }

    ghost predicate IsDialed(p: AddrPort)
      requires cfg.maxAddrs >= 0
    {
      exists k: nat :: k < Width() && p == Nth(k)
    }

    ghost predicate Connected()
      requires cfg.maxAddrs >= 0
    {
      exists p :: IsDialed(p) && net.dial(p) == None
    }

    /** The first dialed address that accepts a connection. */
    ghost predicate IsWorking(w: AddrPort)
      requires cfg.maxAddrs >= 0
    {
      exists k: nat :: k < Width() && w == Nth(k) && net.dial(w) == None
        && forall j: nat :: j < k ==> net.dial(Nth(j)) != None
    }

    ghost predicate AllFailWith(kind: NetErrors.ErrKind)
      requires cfg.maxAddrs >= 0
    {
      forall p :: IsDialed(p) ==> net.dial(p) == Some(kind)
    }

    ghost predicate Rejected(p: AddrPort) {
      net.dial(p) in {Some(NetErrors.Refused), Some(NetErrors.Reset), Some(NetErrors.Eof)}
    }

    // ------------------------------------------------------- handshakes

    /** The handshake at an address under the target's own name. */
    ghost function Own(w: AddrPort): TlsCheck.Attempt {
      net.peer(w, t.host)
    }

    /** The name tried beside the target's own. */
    ghost function OtherName(): string {
      if cfg.neutralSni == "" then "example.com" else cfg.neutralSni
    }

    /** The target's name is cut off where another name, or none, is answered. */
    ghost predicate Filtered(w: AddrPort) {
      Died(Own(w)) && (Answered(net.peer(w, OtherName())) || Answered(net.peer(w, "")))
    }

    /** The certificate was presented and refused for the target. */
    ghost predicate Refused(x: TlsCheck.Attempt) {
      x.Completed? && x.leaf.Some? && t.host != "" && x.leaf.value.problem.Some?
    }

    ghost predicate Accepted(x: TlsCheck.Attempt) {
      x.Completed? && !Refused(x)
    }

    /** The certificate was issued by an inspection product. */
    ghost predicate Inspected(x: TlsCheck.Attempt) {
      x.Completed? && cfg.issuers(if x.leaf.Some? then x.leaf.value.issuer else "").Some?
    }

    /** The working address answers for the target over a channel that can be believed. */
    ghost predicate Sound(w: AddrPort)
      requires cfg.maxAddrs >= 0
    {
      IsWorking(w) && Accepted(Own(w)) && !Inspected(Own(w))
    }

    // -------------------------------------------------------- responses

    ghost function Fetched(w: AddrPort): HttpCheck.Exchange {
      net.exchange(w, Refused(Own(w)))
    }

    ghost predicate Slowed(w: AddrPort) {
      cfg.speed && Normal(Fetched(w)) && net.speed(w, baseline).Some?
    }

    /** The service's status page is asked, and reports an outage. */
    ghost predicate OutageReported() {
      var i := net.outage.indicator;
      t.statusPage != "" && (i.Minor? || i.Major? || i.Critical?)
    }

    // -------------------------------------------------------------- DNS

    /** The address that only the system resolver gave does not serve the target. */
    ghost predicate SuspectDisproved()
      requires cfg.maxAddrs >= 0
    {
      && Dns().suspects != []
      && var x := net.peer(At(Dns().suspects[0]), t.host);
         !Accepted(x) && (Answered(x) || exists w :: IsWorking(w) && Accepted(Own(w)))
    }

    ghost predicate DnsLies()
      requires cfg.maxAddrs >= 0
    {
      Dns().blockIPs != [] || Dns().bogons != [] || SuspectDisproved()
    }

    ghost predicate ControlResolves() {
      exists ans :: (ans == control.system || ans in control.public) && ans.err == None && ans.addrs != []
    }

    /** Every plain resolver is silent about this name and not about the control name. */
    ghost predicate Dropped() {
      Dns().unresolvable && Dns().allPlainTimeout && ControlResolves()
    }

    // --------------------------------------------------------- verdicts

    ghost predicate LocalUnusable() {
      && local.Some?
      && var l := local.value;
         || (l.interfaces != [] && forall i :: i in l.interfaces ==> !(i.up && !i.loop && i.hasAddr))
         || !l.defaultRoute
         || (l.baseline != [] && forall p :: p in l.baseline ==> !p.ok)
    }

    ghost predicate LocalBlamed()
      requires cfg.maxAddrs >= 0
    {
      LocalUnusable() && !Connected()
    }

    /** The path, and not DNS, is at fault in this way. */
    ghost predicate AtFault(v: Verdict)
      requires cfg.maxAddrs >= 0
    {
      match v
      case IpBlocked =>
        || (Dns().reference != [] && (AllFailWith(NetErrors.Timeout) || AllFailWith(NetErrors.Unreachable)))
        || (exists w :: IsWorking(w) && Own(w) == TlsCheck.HandshakeFailed(NetErrors.Timeout) && !Filtered(w))
      case ConnectionReset =>
        || (!Connected() && exists p :: IsDialed(p) && Rejected(p))
        || (exists w :: IsWorking(w) && Died(Own(w)) && Own(w).tlsErr != NetErrors.Timeout && !Filtered(w))
        || (exists w :: Sound(w) && CutOff(Fetched(w)))
      case SniFiltered => exists w :: IsWorking(w) && Filtered(w)
      case BlockPage => exists w :: IsWorking(w) && Own(w).Completed? && IsBlockPage(Fetched(w))
      case TlsIntercepted =>
        exists w :: IsWorking(w) && !IsBlockPage(Fetched(w)) && (Refused(Own(w)) || Inspected(Own(w)))
      case ProviderGeoBlock => exists w :: Sound(w) && IsGeoBlock(Fetched(w))
      case Throttled => exists w :: Sound(w) && Slowed(w)
      case UpstreamOutage =>
        exists w ::
          && Sound(w)
          && (ServerFails(Fetched(w)) || (Broken(Fetched(w)) && !CutOff(Fetched(w)) && OutageReported()))
      case _ => false
    }

    ghost predicate SomethingAtFault()
      requires cfg.maxAddrs >= 0
    {
      exists v :: AtFault(v)
    }

    ghost predicate InOrder()
      requires cfg.maxAddrs >= 0
    {
      exists w :: Sound(w) && Normal(Fetched(w)) && !Slowed(w)
    }

    ghost predicate DnsHealthy()
      requires cfg.maxAddrs >= 0
    {
      !DnsLies() && Dns().systemFailure == DnsCheck.NoFailure
    }

    /** The verdict this case deserves. */
    ghost predicate Deserves(v: Verdict)
      requires cfg.maxAddrs >= 0
    {
      if LocalBlamed() then v.LocalNetworkDown?
      else
        match v
        case LocalNetworkDown => false
        case DnsIntercepted =>
          && !SomethingAtFault()
          && if DnsLies() then hijacked || Dns().injectedPublic else DnsHealthy() && Dropped()
        case DnsPoisoned =>
          && !SomethingAtFault()
          && if DnsLies() then !hijacked && !Dns().injectedPublic else !DnsHealthy()
        case OK => InOrder() && DnsHealthy()
        case Inconclusive =>
          && !SomethingAtFault() && !InOrder() && DnsHealthy() && !Dropped()
          && !(Dns().unresolvable && OutageReported())
        case UpstreamOutage =>
          AtFault(v) || (Dns().unresolvable && DnsHealthy() && !Dropped() && OutageReported())
        case _ => AtFault(v)
    }

    /** The DNS problem that is listed beside a path at fault. */
    ghost function Beside(): seq<Verdict>
      requires cfg.maxAddrs >= 0
    {
      if LocalBlamed() || !SomethingAtFault() || DnsHealthy() then []
      else if DnsLies() && (hijacked || Dns().injectedPublic) then [DnsIntercepted]
      else [DnsPoisoned]
    }

    // ---------------------------------------------------------- reasons

    /** Whose word the reference rests on, as the reason keys show it. */
    ghost function Plain(): string {
      if Dns().referenceKind.Doh? then "" else "_plain"
    }

    /** The first bad or suspect address. */
    ghost predicate SaysBad(d: Decision, c: Confidence, key: string) {
      var bad := Dns().blockIPs + Dns().bogons + Dns().suspects;
      bad != [] && Says(d, c, key, map["ip" := IpArg(bad[0])])
    }

    ghost predicate PoisoningExplained(d: Decision)
      requires cfg.maxAddrs >= 0
    {
      if Dns().blockIPs != [] then SaysBad(d, High, "dns.block_ip")
      else if Dns().bogons != [] then SaysBad(d, High, "dns.bogon" + Plain())
      else if SuspectDisproved() then SaysBad(d, Medium, "dns.mismatch")
      else if Dns().systemFailure in {DnsCheck.FailNxDomain, DnsCheck.FailNoAnswer} then
        Says(d, Medium, "dns.nxdomain" + Plain(), map[])
      else Says(d, Low, "dns.failed" + Plain(), map["error" := FailureArg(Dns().systemFailure)])
    }

    /** Nothing accepted a connection: the reason names the first address that was dialed. */
    ghost predicate DialsExplained(d: Decision)
      requires cfg.maxAddrs >= 0
    {
      && Width() > 0
      && var ip := map["ip" := IpArg(Dns().reference[0])];
         if d.verdict.ConnectionReset? then Says(d, Medium, "tcp.reset", ip)
         else if AllFailWith(NetErrors.Timeout) then
           Says(d, if BaselineReached() then High else Medium, "tcp.timeout", ip)
         else Says(d, Medium, "tcp.unreachable", ip)
    }

    ghost predicate BaselineReached() {
      local.Some? && exists p :: p in local.value.baseline && p.ok
    }

    /** The service's status page confirms the outage, or the response alone shows it. */
    ghost predicate OutageExplained(d: Decision)
      requires cfg.maxAddrs >= 0
    {
      if OutageReported() then
        Says(d, if net.outage.indicator.Minor? then Medium else High, "outage.confirmed",
             map["description" := TextArg(net.outage.description)])
      else
        exists w :: IsWorking(w) && Fetched(w).Response?
          && Says(d, Medium, "http.5xx", map["status" := StatusArg(Fetched(w).status)])
    }

    ghost function Unclear(w: AddrPort): string {
      if Own(w) == TlsCheck.HandshakeFailed(NetErrors.Alert) then "tls.alert"
      else if !Own(w).Completed? then "inconclusive"
      else if Broken(Fetched(w)) && Breakage(Fetched(w)) == NetErrors.Timeout then "http.timeout"
      else "http.error"
    }

    ghost predicate DoubtExplained(d: Decision)
      requires cfg.maxAddrs >= 0
    {
      if Dns().unresolvable then
        Says(d, Low, if Dns().dohUnavailable then "dns.unresolvable_nodoh" else "dns.unresolvable", map[])
      else if !Connected() then Says(d, Low, "inconclusive", map[])
      else exists w :: IsWorking(w) && Says(d, Low, Unclear(w), map[])
    }

    /** The certificate, or the product that issued it. */
    ghost predicate InspectionExplained(w: AddrPort, d: Decision) {
      && Own(w).Completed?
      && if Refused(Own(w)) then
           var leaf := Own(w).leaf.value;
           var issuer := map["issuer" := TextArg(leaf.issuerName)];
           match leaf.problem.value
           case UnknownAuthority => Says(d, High, "tls.untrusted", issuer)
           case Hostname => Says(d, Medium, "tls.hostname", issuer)
           case Expired => Says(d, Low, "tls.expired", map[])
           case OtherProblem => Says(d, Medium, "tls.untrusted", issuer)
         else
           var product := cfg.issuers(if Own(w).leaf.Some? then Own(w).leaf.value.issuer else "");
           product.Some? && Says(d, Medium, "tls.middlebox", map["issuer" := TextArg(product.value)])
    }

    /** The layers at the working address. */
    ghost predicate PathExplained(w: AddrPort, d: Decision) {
      match d.verdict
      case IpBlocked => Says(d, Medium, "tls.timeout", map["ip" := IpArg(w.addr)])
      case ConnectionReset =>
        if Own(w).Completed? then Says(d, Medium, "http.reset", map[])
        else Says(d, Medium, "tls.reset", map["ip" := IpArg(w.addr)])
      case SniFiltered =>
        var silent := Own(w) == TlsCheck.HandshakeFailed(NetErrors.Timeout);
        Says(d, High, if silent then "tls.sni_timeout" else "tls.sni_reset", map[])
      case BlockPage =>
        && IsBlockPage(Fetched(w))
        && Says(d, High, "http.block_page", map["signature" := TextArg(Fetched(w).blockPage.value)])
      case TlsIntercepted => InspectionExplained(w, d)
      case ProviderGeoBlock =>
        && IsGeoBlock(Fetched(w))
        && var x := Fetched(w);
           if x.geoBlock.Some? then
             Says(d, High, "http.geo_block",
                  map["status" := StatusArg(x.status), "signature" := TextArg(x.geoBlock.value)])
           else Says(d, Medium, "http.451", map[])
      case Throttled =>
        && net.speed(w, baseline).Some?
        && Says(d, Medium, if net.speed(w, baseline).value.Handshake? then "speed.handshake" else "speed.throughput",
                map[])
      case OK => Normal(Fetched(w)) && Says(d, High, "ok.http", map["status" := StatusArg(Fetched(w).status)])
      case _ => false
    }

    /** The confidence and the reason that go with a verdict. */
    ghost predicate Explained(d: Decision)
      requires cfg.maxAddrs >= 0
    {
      match d.verdict
      case LocalNetworkDown => local.Some? && MachineExplained(local.value, d)
      case DnsIntercepted =>
        if DnsLies() then SaysBad(d, High, "dns.intercepted") else Says(d, Medium, "dns.dropped", map[])
      case DnsPoisoned => PoisoningExplained(d)
      case UpstreamOutage => OutageExplained(d)
      case Inconclusive => DoubtExplained(d)
      case _ => if Connected() then exists w :: IsWorking(w) && PathExplained(w, d) else DialsExplained(d)
    }
  }

  ghost predicate Says(d: Decision, c: Confidence, key: string, args: map<string, Arg>) {
    d.confidence == c && d.reason == Reason(key, args)
  }

  ghost predicate MachineExplained(l: LocalNet.Result, d: Decision) {
    if l.interfaces != [] && forall i :: i in l.interfaces ==> !(i.up && !i.loop && i.hasAddr) then
      Says(d, High, "local.no_interface", map[])
    else if !l.defaultRoute then Says(d, High, "local.no_route", map[])
    else Says(d, Medium, "local.unreachable", map[])
  }

  /** The connection was cut, or fell silent, during the handshake. */
  ghost predicate Died(x: TlsCheck.Attempt) {
    x.HandshakeFailed? && x.tlsErr in {NetErrors.Reset, NetErrors.Refused, NetErrors.Timeout, NetErrors.Eof}
  }

  /** The server answered the handshake, be it with an alert. */
  ghost predicate Answered(x: TlsCheck.Attempt) {
    x.Completed? || (x.HandshakeFailed? && x.tlsErr == NetErrors.Alert)
  }

  ghost predicate IsBlockPage(x: HttpCheck.Exchange) {
    x.Response? && x.blockPage.Some?
  }

  ghost predicate IsGeoBlock(x: HttpCheck.Exchange) {
    x.Response? && x.blockPage.None? && (x.geoBlock.Some? || x.status == 451)
  }

  ghost predicate Unsigned(x: HttpCheck.Exchange) {
    x.Response? && x.blockPage.None? && x.geoBlock.None? && x.status != 451
  }

  ghost predicate ServerFails(x: HttpCheck.Exchange) {
    Unsigned(x) && x.status >= 500
  }

  /** No response, or a plain one whose body could not be read at all. */
  ghost predicate Broken(x: HttpCheck.Exchange) {
    x.NoResponse? || (Unsigned(x) && x.status < 500 && x.bodyErr.Some? && x.emptyBody)
  }

  ghost function Breakage(x: HttpCheck.Exchange): NetErrors.ErrKind
    requires Broken(x)
  {
    if x.NoResponse? then x.kind else x.bodyErr.value
  }

  ghost predicate CutOff(x: HttpCheck.Exchange) {
    Broken(x) && Breakage(x) in {NetErrors.Reset, NetErrors.Eof}
  }

  ghost predicate Normal(x: HttpCheck.Exchange) {
    Unsigned(x) && x.status < 500 && !(x.bodyErr.Some? && x.emptyBody)
  }
}
