// The connection through a proxy (internal/netx/proxy.go): the SOCKS5 client (RFC 1928,
// RFC 1929) and the HTTP CONNECT path, over a byte stream that may arrive in any pieces.
module Socks5 {
  import opened Base

  // ---------------------------------------------------------- the stream

  /** A connection to the proxy: what the far end will send, and how much of it was read. */
  class Conn {
    const input: Bytes   // everything that arrives before the stream ends or the deadline passes
    const accepts: nat   // how many writes succeed
    var consumed: nat
    var written: Bytes
    var writes: nat
    var closed: bool

    constructor (input: Bytes, accepts: nat)
      ensures this.input == input && this.accepts == accepts
      ensures Valid() && consumed == 0 && written == [] && writes == 0 && !closed
    {
      this.input, this.accepts := input, accepts;
      consumed, written, writes, closed := 0, [], 0, false;
    }

    ghost predicate Valid()
      reads this
    {
      consumed <= |input| && writes <= accepts
    }

    /** The bytes nobody has read yet. */
    ghost function Rest(): Bytes
      reads this
      requires Valid()
    {
      input[consumed..]
    }

    method Write(data: Bytes) returns (ok: bool)
      requires Valid()
      modifies this`written, this`writes
      ensures Valid() && ok == (old(writes) < accepts)
      ensures written == (if ok then old(written) + data else old(written))
      ensures writes == (if ok then old(writes) + 1 else old(writes))
    {
      ok := writes < accepts;
      if ok {
        written, writes := written + data, writes + 1;
      }
    }

    /** One read returns some bytes, as many as happen to have arrived; none at the end. */
    method Read(limit: nat) returns (p: Bytes)
      requires Valid() && limit >= 1
      modifies this`consumed
      ensures Valid() && |p| <= limit
      ensures old(Rest()) == p + Rest()
      ensures p == [] <==> old(Rest()) == []
    {
      if consumed == |input| {
        return [];
      }
      var n: nat :| 1 <= n <= limit && n <= |input| - consumed;
      p := input[consumed..consumed + n];
      consumed := consumed + n;
    }

    /** io.ReadFull: exactly `n` bytes, or an error after reading what there was. */
    method ReadFull(n: nat) returns (p: Option<Bytes>)
      requires Valid()
      modifies this`consumed
      ensures Valid()
      ensures p == if n <= |old(Rest())| then Some(old(Rest())[..n]) else None
      ensures Rest() == if n <= |old(Rest())| then old(Rest())[n..] else []
    {
      var got: Bytes := [];
      while |got| < n
        invariant Valid() && |got| <= n
        invariant got + Rest() == old(Rest())
      {
        var more := Read(n - |got|);
        if more == [] {
          assert got == old(Rest());
          return None;
        }
        ConcatAssoc(got, more, Rest());
        got := got + more;
      }
      return Some(got);
    }
  }

  // ------------------------------------------------------- configuration

  datatype Credentials = Credentials(user: Bytes, pass: Bytes) {
    predicate Fit() {
      |user| <= 255 && |pass| <= 255
    }
  }

  /** The address to connect to, as the standard library splits and parses it. */
  datatype Address =
    | Unsplittable
    | Split(host: Bytes, port: Option<int>, ip: Option<Octets16>)

  datatype Failure =
    | BadAddress
    | BadPort
    | Io
    | BadVersion
    | NoAcceptableMethod
    | CredentialsTooLong
    | AuthFailed
    | HostTooLong
    | Refused(code: byte)
    | BadAddressType

  // ------------------------------------------------------------- messages

  /** The method-selection message: no authentication, and user/password when there is a user. */
  function Greeting(user: Option<Credentials>): Bytes {
    if user.Some? then [5, 2, 0, 2] else [5, 1, 0]
  }

  /** The user part of a URL without one reads as empty strings. */
  function CredentialsOf(user: Option<Credentials>): Credentials {
    if user.Some? then user.value else Credentials([], [])
  }

  function AuthMessage(c: Credentials): Bytes
    requires c.Fit()
  {
    [1, |c.user| as byte] + c.user + ([|c.pass| as byte] + c.pass)
  }

  /** The address part of a request: type, address; a mapped IPv4 address is sent as IPv4. */
  function AddressPart(a: Address): Bytes
    requires a.Split? && (a.ip.None? ==> |a.host| <= 255)
  {
    match a.ip
    case Some(ip) => if ip[..12] == MAPPED_PREFIX then [1] + ip[12..] else [4] + ip
    case None => [3, |a.host| as byte] + a.host
  }

  /** The CONNECT request; the port is truncated to 16 bits. */
  function RequestMessage(a: Address): Bytes
    requires a.Split? && a.port.Some? && (a.ip.None? ==> |a.host| <= 255)
  {
    [5, 1, 0] + AddressPart(a) + Be16(a.port.value % 0x1_0000)
  }

  // ---------------------------------------------------- the specification

  /** How a dialogue ends: the failure if any, what was sent, and how many bytes were read. */
  datatype Outcome = Outcome(failure: Option<Failure>, sent: Bytes, read: nat)

  /** Method selection, and authentication when the proxy asks for it, on the bytes the proxy sends. */
  function Negotiation(user: Option<Credentials>, input: Bytes, accepts: nat): (o: Outcome)
    ensures o.read <= |input|
    ensures o.failure.None? ==> |input| >= 2 && o.read == (if input[1] == 2 then 4 else 2)
  {
    var hello := Greeting(user);
    if accepts < 1 then Outcome(Some(Io), [], 0)
    else if |input| < 2 then Outcome(Some(Io), hello, |input|)
    else if input[0] != 5 then Outcome(Some(BadVersion), hello, 2)
    else if input[1] == 0 then Outcome(None, hello, 2)
    else if input[1] != 2 then Outcome(Some(NoAcceptableMethod), hello, 2)
    else
      var auth := Authentication(CredentialsOf(user), input[2..], accepts - 1);
      Outcome(auth.failure, hello + auth.sent, 2 + auth.read)
  }

  function Authentication(c: Credentials, input: Bytes, accepts: nat): (o: Outcome)
    ensures o.read <= |input|
    ensures o.failure.None? ==> o.read == 2
  {
    if !c.Fit() then Outcome(Some(CredentialsTooLong), [], 0)
    else if accepts < 1 then Outcome(Some(Io), [], 0)
    else if |input| < 2 then Outcome(Some(Io), AuthMessage(c), |input|)
    else if input[1] != 0 then Outcome(Some(AuthFailed), AuthMessage(c), 2)
    else Outcome(None, AuthMessage(c), 2)
  }

  /** The reply to a request: whether it grants the connection, and its length. */
  function Reply(input: Bytes): (r: (Option<Failure>, nat))
    ensures r.1 <= |input|
  {
    if |input| < 4 then (Some(Io), |input|)
    else if input[1] != 0 then (Some(Refused(input[1])), 4)
    else if input[3] == 1 then BoundAddress(input, 4, 4)
    else if input[3] == 4 then BoundAddress(input, 4, 16)
    else if input[3] != 3 then (Some(BadAddressType), 4)
    else if |input| < 5 then (Some(Io), |input|)
    else BoundAddress(input, 5, input[4])
  }

  /** The bound address of `skip` bytes at `off`, and its port. */
  function BoundAddress(input: Bytes, off: nat, skip: nat): (r: (Option<Failure>, nat))
    ensures r.1 <= |input|
  {
    if off + skip + 2 <= |input| then (None, off + skip + 2) else (Some(Io), |input|)
  }

  function Requesting(a: Address, input: Bytes, accepts: nat): (o: Outcome)
    requires a.Split? && a.port.Some?
    ensures o.read <= |input|
  {
    if a.ip.None? && |a.host| > 255 then Outcome(Some(HostTooLong), [], 0)
    else if accepts < 1 then Outcome(Some(Io), [], 0)
    else Outcome(Reply(input).0, RequestMessage(a), Reply(input).1)
  }

  /** The whole dialogue. */
  function Session(user: Option<Credentials>, a: Address, input: Bytes, accepts: nat): (o: Outcome)
    ensures o.read <= |input|
  {
    if a.Unsplittable? then Outcome(Some(BadAddress), [], 0)
    else if a.port.None? then Outcome(Some(BadPort), [], 0)
    else
      var first := Negotiation(user, input, accepts);
      if first.failure.Some? then first
      else
        var second := Requesting(a, input[first.read..], accepts - first.read / 2);
        Outcome(second.failure, first.sent + second.sent, first.read + second.read)
  }

  // ----------------------------------------------------- the client code

  method Negotiate(conn: Conn, user: Option<Credentials>) returns (err: Option<Failure>)
    requires conn.Valid()
    modifies conn`consumed, conn`written, conn`writes
    ensures conn.Valid()
    ensures var o := Negotiation(user, old(conn.Rest()), conn.accepts - old(conn.writes));
      && err == o.failure && conn.written == old(conn.written) + o.sent && conn.Rest() == old(conn.Rest())[o.read..]
      && (err.None? ==> conn.writes == old(conn.writes) + o.read / 2)
  {
    var methods: Bytes := [0];
    if user.Some? {
      methods := [0, 2];
    }
    var hello: Bytes := [5, |methods| as byte] + methods;
    assert hello == Greeting(user);
    var ok := conn.Write(hello);
    if !ok {
      return Some(Io);
    }
    var reply := conn.ReadFull(2);
    if reply.None? {
      return Some(Io);
    }
    if reply.value[0] != 5 {
      return Some(BadVersion);
    }
    if reply.value[1] == 0 {
      return None;
    }
    if reply.value[1] != 2 {
      return Some(NoAcceptableMethod);
    }
    ghost var auth := Authentication(CredentialsOf(user), conn.Rest(), conn.accepts - conn.writes);
    ConcatAssoc(old(conn.written), Greeting(user), auth.sent);
    err := Authenticate(conn, CredentialsOf(user));
  }

  method Authenticate(conn: Conn, cred: Credentials) returns (err: Option<Failure>)
    requires conn.Valid()
    modifies conn`consumed, conn`written, conn`writes
    ensures conn.Valid()
    ensures var o := Authentication(cred, old(conn.Rest()), conn.accepts - old(conn.writes));
      && err == o.failure && conn.written == old(conn.written) + o.sent && conn.Rest() == old(conn.Rest())[o.read..]
      && (err.None? ==> conn.writes == old(conn.writes) + 1)
  {
    if |cred.user| > 255 || |cred.pass| > 255 {
      return Some(CredentialsTooLong);
    }
    var msg: Bytes := [1, |cred.user| as byte];
    msg := msg + cred.user;
    msg := msg + [|cred.pass| as byte];
    msg := msg + cred.pass;
    assert msg == AuthMessage(cred);
    var ok := conn.Write(msg);
    if !ok {
      return Some(Io);
    }
    var reply := conn.ReadFull(2);
    if reply.None? {
      return Some(Io);
    }
    if reply.value[1] != 0 {
      return Some(AuthFailed);
    }
    return None;
  }

  method SendRequest(conn: Conn, a: Address) returns (err: Option<Failure>)
    requires conn.Valid() && a.Split? && a.port.Some?
    modifies conn`consumed, conn`written, conn`writes
    ensures conn.Valid()
    ensures var o := Requesting(a, old(conn.Rest()), conn.accepts - old(conn.writes));
      err == o.failure && conn.written == old(conn.written) + o.sent && conn.Rest() == old(conn.Rest())[o.read..]
  {
    var req: Bytes := [5, 1, 0];
    if a.ip.Some? {
      var ip := a.ip.value;
      if ip[..12] == MAPPED_PREFIX {
        req := req + [1];
        req := req + ip[12..];
      } else {
        req := req + [4];
        req := req + ip;
      }
    } else {
      if |a.host| > 255 {
        return Some(HostTooLong);
      }
      req := req + [3, |a.host| as byte];
      req := req + a.host;
    }
    req := req + Be16(a.port.value % 0x1_0000);
    assert req == RequestMessage(a);
    var ok := conn.Write(req);
    if !ok {
      return Some(Io);
    }
    err := ReadReply(conn);
  }

  method ReadReply(conn: Conn) returns (err: Option<Failure>)
    requires conn.Valid()
    modifies conn`consumed
    ensures conn.Valid()
    ensures err == Reply(old(conn.Rest())).0 && conn.Rest() == old(conn.Rest())[Reply(old(conn.Rest())).1..]
  {
    var head := conn.ReadFull(4);
    if head.None? {
      return Some(Io);
    }
    if head.value[1] != 0 {
      return Some(Refused(head.value[1]));
    }
    var skip: nat := 0;
    if head.value[3] == 1 {
      skip := 4;
    } else if head.value[3] == 4 {
      skip := 16;
    } else if head.value[3] == 3 {
      var l := conn.ReadFull(1);
      if l.None? {
        return Some(Io);
      }
      skip := l.value[0];
    } else {
      return Some(BadAddressType);
    }
    var bound := conn.ReadFull(skip + 2);
    if bound.None? {
      return Some(Io);
    }
    return None;
  }

  /** socks5Connect: negotiate, then request the tunnel. */
  method Connect(conn: Conn, user: Option<Credentials>, a: Address) returns (err: Option<Failure>)
    requires conn.Valid()
    modifies conn`consumed, conn`written, conn`writes
    ensures conn.Valid()
    ensures var o := Session(user, a, old(conn.Rest()), conn.accepts - old(conn.writes));
      err == o.failure && conn.written == old(conn.written) + o.sent && conn.Rest() == old(conn.Rest())[o.read..]
  {
    if a.Unsplittable? {
      return Some(BadAddress);
    }
    if a.port.None? {
      return Some(BadPort);
    }
    err := Negotiate(conn, user);
    if err.Some? {
      return;
    }
    ghost var first := Negotiation(user, old(conn.Rest()), conn.accepts - old(conn.writes));
    ghost var second := Requesting(a, conn.Rest(), conn.accepts - conn.writes);
    ConcatAssoc(old(conn.written), first.sent, second.sent);
    err := SendRequest(conn, a);
  }

  // -------------------------------------------------------- DialContext

  // The size of the reader's buffer.
  const BUFFER_SIZE: nat := 4096

  /** A buffered reader on the connection: what it has already taken off comes first. */
  class BufReader {
    const conn: Conn
    var buffered: Bytes

    constructor (conn: Conn)
      ensures this.conn == conn && buffered == []
    {
      this.conn, buffered := conn, [];
    }

    ghost function Unread(): Bytes
      reads this, conn
      requires conn.Valid()
    {
      buffered + conn.Rest()
    }

    /** bufferedConn.Read. */
    method Read(limit: nat) returns (p: Bytes)
      requires conn.Valid() && limit >= 1
      modifies this`buffered, conn`consumed
      ensures conn.Valid() && |p| <= limit
      ensures old(Unread()) == p + Unread()
      ensures p == [] <==> old(Unread()) == []
    {
      if buffered == [] {
        if limit >= BUFFER_SIZE {
          p := conn.Read(limit);
          return;
        }
        buffered := conn.Read(BUFFER_SIZE);
      }
      var n := if |buffered| < limit then |buffered| else limit;
      p, buffered := buffered[..n], buffered[n..];
      ConcatAssoc(p, buffered, conn.Rest());
    }
  }

  /** What the bytes read so far say about the response to CONNECT. */
  datatype Head = Incomplete | Malformed | Status(code: int)

  /** The response head in `s` is its first `n` bytes, the shortest that settle it. */
  ghost predicate IsHead(head: Bytes -> Head, s: Bytes, n: nat) {
    && n <= |s| && !head(s[..n]).Incomplete?
    && forall m :: 0 <= m < n ==> head(s[..m]).Incomplete?
  }

  /** Reads the response head, through the buffer, and not a byte more as far as its reader can tell. */
  method ReadHead(br: BufReader, head: Bytes -> Head) returns (h: Head, ghost n: nat)
    requires br.conn.Valid()
    modifies br`buffered, br.conn`consumed
    ensures br.conn.Valid()
    ensures n <= |old(br.Unread())| && br.Unread() == old(br.Unread())[n..]
    ensures if h.Incomplete? then forall m :: 0 <= m <= |old(br.Unread())| ==> head(old(br.Unread())[..m]).Incomplete?
            else IsHead(head, old(br.Unread()), n) && h == head(old(br.Unread())[..n])
  {
    var got: Bytes := [];
    ghost var all := br.Unread();
    while head(got).Incomplete?
      invariant br.conn.Valid()
      invariant |got| <= |all| && got == all[..|got|] && br.Unread() == all[|got|..]
      invariant forall m :: 0 <= m < |got| ==> head(all[..m]).Incomplete?
      decreases |br.Unread()|
    {
      var more := br.Read(1);
      if more == [] {
        return Incomplete, |got|;
      }
      assert all[..|got| + 1] == got + more;
      got := got + more;
    }
    return head(got), |got|;
  }

  datatype Proxy =
    | Socks(user: Option<Credentials>)
    | Http(request: Bytes, head: Bytes -> Head)   // the CONNECT request as rendered, and how its response reads

  datatype DialError = NotTcp | Unreachable | SocksFailed(failure: Failure) | HttpIo | HttpStatus(code: int)

  /** The connection handed to the caller: the plain one, or one that first empties the buffer. */
  datatype Tunnel = Plain(conn: Conn) | Buffered(reader: BufReader) {
    ghost function Base(): Conn {
      if Plain? then conn else reader.conn
    }

    ghost function Unread(): Bytes
      reads if Plain? then {conn} else {reader, reader.conn}
      requires Base().Valid()
    {
      if Plain? then conn.Rest() else reader.Unread()
    }
  }

  ghost predicate HttpGrants(head: Bytes -> Head, input: Bytes, accepts: nat) {
    accepts >= 1 && exists n: nat :: IsHead(head, input, n) && head(input[..n]) == Status(200)
  }

  /** A response head has only one end. */
  lemma HeadDecides(head: Bytes -> Head, s: Bytes, n: nat, h: Head)
    requires if h.Incomplete? then forall m :: 0 <= m <= |s| ==> head(s[..m]).Incomplete?
             else IsHead(head, s, n) && h == head(s[..n])
    ensures forall k: nat :: IsHead(head, s, k) ==> !h.Incomplete? && k == n
  {
    forall k: nat | IsHead(head, s, k) ensures !h.Incomplete? && k == n {
      assert !head(s[..k]).Incomplete?;
    }
  }

  /** How many bytes the proxy's own reply takes when it grants the tunnel. */
  ghost predicate IsReply(proxy: Proxy, a: Address, input: Bytes, accepts: nat, n: nat) {
    match proxy
    case Socks(user) => Session(user, a, input, accepts).failure.None? && n == Session(user, a, input, accepts).read
    case Http(_, head) => accepts >= 1 && IsHead(head, input, n) && head(input[..n]) == Status(200)
  }

  /** What the client says to a proxy that grants the tunnel. */
  ghost function Said(proxy: Proxy, a: Address, input: Bytes, accepts: nat): Bytes {
    match proxy
    case Socks(user) => Session(user, a, input, accepts).sent
    case Http(request, _) => request
  }

  ghost predicate Grants(proxy: Proxy, a: Address, input: Bytes, accepts: nat) {
    exists n: nat :: IsReply(proxy, a, input, accepts, n)
  }

  method HttpConnect(conn: Conn, request: Bytes, head: Bytes -> Head)
      returns (r: Result<BufReader, DialError>, ghost n: nat)
    requires conn.Valid()
    modifies conn`consumed, conn`written, conn`writes
    ensures conn.Valid()
    ensures r.Ok? ==> fresh(r.value) && r.value.conn == conn
    ensures r.Ok? ==> conn.writes == old(conn.writes) + 1 && conn.written == old(conn.written) + request
    ensures r.Ok? ==> IsHead(head, old(conn.Rest()), n) && head(old(conn.Rest())[..n]) == Status(200)
    ensures r.Ok? ==> r.value.Unread() == old(conn.Rest())[n..]
    ensures r.Err? ==> !HttpGrants(head, old(conn.Rest()), conn.accepts - old(conn.writes))
  {
    n := 0;
    var ok := conn.Write(request);
    if !ok {
      return Err(HttpIo), 0;
    }
    var br := new BufReader(conn);
    assert br.Unread() == old(conn.Rest());
    var h;
    h, n := ReadHead(br, head);
    HeadDecides(head, old(conn.Rest()), n, h);
    match h {
      case Status(code) =>
        if code != 200 {
          return Err(HttpStatus(code)), n;
        }
        return Ok(br), n;
      case _ => return Err(HttpIo), n;
    }
  }

  /** The connection is open, the reply's `n` bytes are read, and the request was sent. */
  ghost predicate IsOpened(proxy: Proxy, a: Address, input: Bytes, accepts: nat, n: nat, sent: Bytes, rest: Bytes) {
    && n <= |input| && rest == input[n..] && IsReply(proxy, a, input, accepts, n)
    && sent == Said(proxy, a, input, accepts)
  }

  /** The HTTP branch: the reader is kept only when it holds bytes that were read ahead. */
  method OverHttp(conn: Conn, request: Bytes, head: Bytes -> Head, ghost a: Address)
      returns (r: Result<Tunnel, DialError>, ghost n: nat)
    requires conn.Valid() && !conn.closed
    modifies conn
    ensures conn.Valid() && conn.closed == r.Err?
    ensures r.Ok? ==> r.value.Base() == conn && old(conn.written) <= conn.written
    ensures r.Ok? ==>
      IsOpened(Http(request, head), a, old(conn.Rest()), conn.accepts - old(conn.writes), n,
               conn.written[|old(conn.written)|..], r.value.Unread())
    ensures r.Err? ==> !Grants(Http(request, head), a, old(conn.Rest()), conn.accepts - old(conn.writes))
  {
    var connected;
    connected, n := HttpConnect(conn, request, head);
    if connected.Err? {
      conn.closed := true;
      return Err(connected.error), n;
    }
    if connected.value.buffered != [] {
      return Ok(Buffered(connected.value)), n;
    }
    return Ok(Plain(conn)), n;
  }

  /** The SOCKS5 branch. */
  method OverSocks(conn: Conn, user: Option<Credentials>, a: Address)
      returns (r: Result<Tunnel, DialError>, ghost n: nat)
    requires conn.Valid() && !conn.closed
    modifies conn
    ensures conn.Valid() && conn.closed == r.Err?
    ensures r.Ok? ==> r.value.Base() == conn && old(conn.written) <= conn.written
    ensures r.Ok? ==>
      IsOpened(Socks(user), a, old(conn.Rest()), conn.accepts - old(conn.writes), n,
               conn.written[|old(conn.written)|..], r.value.Unread())
    ensures r.Err? ==> !Grants(Socks(user), a, old(conn.Rest()), conn.accepts - old(conn.writes))
  {
    n := Session(user, a, conn.Rest(), conn.accepts - conn.writes).read;
    var err := Connect(conn, user, a);
    if err.Some? {
      conn.closed := true;
      return Err(SocksFailed(err.value)), n;
    }
    return Ok(Plain(conn)), n;
  }

  /** Connects through the proxy. Whoever reads the tunnel gets every byte after the proxy's reply. */
  method DialContext(proxy: Proxy, network: string, dialed: Option<Conn>, a: Address)
      returns (r: Result<Tunnel, DialError>, ghost n: nat)
    requires dialed.Some? ==> dialed.value.Valid() && !dialed.value.closed
    modifies if dialed.Some? then {dialed.value} else {}
    ensures r.Ok? ==> dialed.Some? && r.value.Base() == dialed.value && dialed.value.Valid() && !dialed.value.closed
    ensures r.Ok? ==>
      && old(dialed.value.written) <= dialed.value.written
      && IsOpened(proxy, a, old(dialed.value.Rest()), dialed.value.accepts - old(dialed.value.writes), n,
                  dialed.value.written[|old(dialed.value.written)|..], r.value.Unread())
    ensures network in {"tcp", "tcp4", "tcp6"} && dialed.Some? && r.Err? ==>
      && dialed.value.closed
      && !Grants(proxy, a, old(dialed.value.Rest()), dialed.value.accepts - old(dialed.value.writes))
    ensures network !in {"tcp", "tcp4", "tcp6"} ==> r == Err(NotTcp)
    ensures network in {"tcp", "tcp4", "tcp6"} && dialed.None? ==> r == Err(Unreachable)
  {
    if network != "tcp" && network != "tcp4" && network != "tcp6" {
      return Err(NotTcp), 0;
    }
    if dialed.None? {
      return Err(Unreachable), 0;
    }
    match proxy {
      case Http(request, head) => r, n := OverHttp(dialed.value, request, head, a);
      case Socks(user) => r, n := OverSocks(dialed.value, user, a);
    }
  }
}
