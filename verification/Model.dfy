// Types shared by the layers, the verdict engine and the report (internal/model).
module Model {
  import opened Base

  datatype Verdict =
    | OK
    | LocalNetworkDown
    | DnsPoisoned
    | DnsIntercepted
    | IpBlocked
    | ConnectionReset
    | SniFiltered
    | TlsIntercepted
    | BlockPage
    | ProviderGeoBlock
    | Throttled
    | UpstreamOutage
    | Inconclusive

  /** Every verdict in the stable order used for summaries. */
  const ALL_VERDICTS: seq<Verdict> := [
    OK, LocalNetworkDown, DnsPoisoned, DnsIntercepted, IpBlocked,
    ConnectionReset, SniFiltered, TlsIntercepted, BlockPage,
    ProviderGeoBlock, Throttled, UpstreamOutage, Inconclusive
  ]

  function VerdictName(v: Verdict): string {
    match v
    case OK => "OK"
    case LocalNetworkDown => "LOCAL_NETWORK_DOWN"
    case DnsPoisoned => "DNS_POISONED"
    case DnsIntercepted => "DNS_INTERCEPTED"
    case IpBlocked => "IP_BLOCKED"
    case ConnectionReset => "CONNECTION_RESET"
    case SniFiltered => "SNI_FILTERED"
    case TlsIntercepted => "TLS_INTERCEPTED"
    case BlockPage => "BLOCK_PAGE"
    case ProviderGeoBlock => "PROVIDER_GEO_BLOCK"
    case Throttled => "THROTTLED"
    case UpstreamOutage => "UPSTREAM_OUTAGE"
    case Inconclusive => "INCONCLUSIVE"
  }

  datatype Confidence = High | Medium | Low

  datatype Target = Target(host: string, url: string, statusPage: string, speedUrl: string, kind: string)
}
