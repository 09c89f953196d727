// TLS handshakes and the SNI test (internal/tlscheck). What the network does with a
// handshake is given; certificate verification is part of what is given.
module TlsCheck {
  import opened Base
  import NetErrors

  datatype Outcome = OK | CertInvalid | Alert | Reset | Timeout | Eof | ConnectFailed | Error

  datatype CertProblem = UnknownAuthority | Hostname | Expired | OtherProblem

  /** The presented leaf certificate and what validating its chain for the host gives. */
  datatype Leaf = Leaf(issuer: string, issuerName: string, subject: string, problem: Option<CertProblem>)

  /** How one handshake to one address with one server name goes. */
  datatype Attempt =
    | DialFailed(dialErr: NetErrors.ErrKind)
    | HandshakeFailed(tlsErr: NetErrors.ErrKind)
    | Completed(version: string, leaf: Option<Leaf>)

  datatype Handshake = Handshake(
    sni: string,
    outcome: Outcome,
    version: string,
    issuer: string,
    issuerName: string,
    subject: string,
    certProblem: Option<CertProblem>,
    err: Option<NetErrors.ErrKind>
  ) {
    /** The server answered at the TLS level. */
    predicate Reached() {
      outcome.OK? || outcome.CertInvalid? || outcome.Alert?
    }

    /** The handshake died on the network after the connection was open. */
    predicate Blocked() {
      outcome.Reset? || outcome.Timeout? || outcome.Eof?
    }
  }

  function FromError(kind: NetErrors.ErrKind): Outcome {
    match kind
    case Alert => Alert
    case Reset => Reset
    case Refused => Reset
    case Timeout => Timeout
    case Eof => Eof
    case _ => Error
  }

  /** The outcome of every (address, server name) pair. */
  type Peer = (AddrPort, string) -> Attempt

  /** One handshake; the certificate is judged only when `verify` is set and one was presented. */
  function HandshakeOf(peer: Peer, addr: AddrPort, sni: string, verify: bool): Handshake {
    match peer(addr, sni)
    case DialFailed(kind) => Handshake(sni, ConnectFailed, "", "", "", "", None, Some(kind))
    case HandshakeFailed(kind) => Handshake(sni, FromError(kind), "", "", "", "", None, Some(kind))
    case Completed(version, None) => Handshake(sni, OK, version, "", "", "", None, None)
    case Completed(version, Some(leaf)) =>
      var h := Handshake(sni, OK, version, leaf.issuer, leaf.issuerName, leaf.subject, None, None);
      if verify && leaf.problem.Some? then
        h.(outcome := CertInvalid, certProblem := leaf.problem, err := Some(NetErrors.Other))
      else h
  }

  /** One handshake, step by step; the chain is validated for `verifyHost` when that is set. */
  method Do(peer: Peer, addr: AddrPort, sni: string, verifyHost: string) returns (h: Handshake)
    ensures h == HandshakeOf(peer, addr, sni, verifyHost != "")
  {
    h := Handshake(sni, Error, "", "", "", "", None, None);
    var attempt := peer(addr, sni);
    if attempt.DialFailed? {
      h := h.(outcome := ConnectFailed, err := Some(attempt.dialErr));
      return;
    }
    if attempt.HandshakeFailed? {
      h := h.(err := Some(attempt.tlsErr));
      h := h.(outcome := FromError(attempt.tlsErr));
      return;
    }
    h := h.(outcome := OK);
    h := h.(version := attempt.version);
    if attempt.leaf.Some? {
      var leaf := attempt.leaf.value;
      h := h.(issuer := leaf.issuer);
      h := h.(issuerName := leaf.issuerName);
      h := h.(subject := leaf.subject);
      if verifyHost != "" && leaf.problem.Some? {
        h := h.(outcome := CertInvalid);
        h := h.(err := Some(NetErrors.Other));
        h := h.(certProblem := leaf.problem);
      }
    }
  }

  datatype Result = Result(addr: AddrPort, own: Handshake, neutral: Option<Handshake>, noSni: Option<Handshake>) {
    /** The name is blocked while the same address answers another name or none. */
    predicate SniFiltered() {
      && own.Blocked()
      && ((neutral.Some? && neutral.value.Reached()) || (noSni.Some? && noSni.value.Reached()))
    }
  }

  const DEFAULT_NEUTRAL_SNI := "example.com"

  /** What Check returns: the extra handshakes exist exactly when the one with the host name was blocked. */
  function CheckOf(peer: Peer, addr: AddrPort, host: string, neutralSni: string): Result {
    var own := HandshakeOf(peer, addr, host, host != "");
    var neutralName := if neutralSni == "" then DEFAULT_NEUTRAL_SNI else neutralSni;
    if own.Blocked() then
      Result(addr, own, Some(HandshakeOf(peer, addr, neutralName, false)), Some(HandshakeOf(peer, addr, "", false)))
    else
      Result(addr, own, None, None)
  }
}
