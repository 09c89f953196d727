// The small layers whose results the verdict engine reads.

/** The classification of one HTTPS request (internal/httpcheck). */
module HttpCheck {
  import opened Base
  import NetErrors

  datatype Class = OK | BlockPage | GeoBlock | Legal | ServerError | Failed

  /** What a request meets: no response, or a response and the signatures its content matches. */
  datatype Exchange =
    | NoResponse(kind: NetErrors.ErrKind)
    | Response(status: int, blockPage: Option<string>, geoBlock: Option<string>,
               bodyErr: Option<NetErrors.ErrKind>, emptyBody: bool)

  datatype Result = Result(status: int, class_: Class, signature: string, errKind: Option<NetErrors.ErrKind>)

  function Classify(x: Exchange): (Class, string)
    requires x.Response?
  {
    if x.blockPage.Some? then (BlockPage, x.blockPage.value)
    else if x.geoBlock.Some? then (GeoBlock, x.geoBlock.value)
    else if x.status == 451 then (Legal, "")
    else if x.status >= 500 then (ServerError, "")
    else (OK, "")
  }

  function ResultOf(x: Exchange): Result {
    match x
    case NoResponse(kind) => Result(0, Failed, "", Some(kind))
    case Response(status, _, _, bodyErr, emptyBody) =>
      var (class_, signature) := Classify(x);
      if bodyErr.Some? && class_.OK? && emptyBody then Result(status, Failed, signature, bodyErr)
      else Result(status, class_, signature, None)
  }
}

/** The service's own status page (internal/outage). */
module Outage {
  datatype Indicator = Unknown | Fine | Minor | Major | Critical | Maintenance

  datatype Result = Result(indicator: Indicator, description: string) {
    predicate Confirmed() {
      indicator.Minor? || indicator.Major? || indicator.Critical?
    }

    predicate Severe() {
      indicator.Major? || indicator.Critical?
    }
  }
}

/** Downloads compared for throttling (internal/speed); the thresholds are not modelled. */
module Speed {
  datatype Measurement = Measurement(status: int, bytes: nat, millis: nat, handshakeMillis: nat, failed: bool)

  datatype Throttling = Throughput | Handshake
}

/** The machine's own connectivity (internal/localnet). */
module LocalNet {
  import opened Base

  datatype Iface = Iface(name: string, up: bool, loop: bool, hasAddr: bool, vpn: bool) {
    predicate Active() {
      up && !loop && hasAddr
    }
  }

  datatype Probe = Probe(addr: string, ok: bool)

  datatype DownReason = NoInterface | NoRoute | UnreachableBaseline

  datatype Result = Result(interfaces: seq<Iface>, defaultRoute: bool, baseline: seq<Probe>) {
    predicate AnyBaseline() {
      exists p :: p in baseline && p.ok
    }

    /** Whether the local connection is unusable, and why. */
    function Down(): Option<DownReason> {
      if interfaces != [] && !(exists i :: i in interfaces && i.Active()) then Some(NoInterface)
      else if !defaultRoute then Some(NoRoute)
      else if baseline != [] && !AnyBaseline() then Some(UnreachableBaseline)
      else None
    }
  }
}
