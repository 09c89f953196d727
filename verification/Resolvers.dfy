// The UDP and DNS-over-HTTPS resolvers (internal/dnscheck/resolvers.go), over the
// datagrams and the response body the network delivers.
module Resolvers {
  import opened Base
  import opened DnsWire

  datatype LookupError =
    | BadName
    | Network              // dialing, writing or reading failed
    | HttpStatus(status: int)
    | BadMessage
    | NxDomain
    | RCode(code: nat)
    | NoAnswer

  // The size of the receive buffer; what does not fit is cut off.
  const BUFFER_SIZE: nat := 1500

  // The most bytes read from a DNS-over-HTTPS response.
  const BODY_LIMIT: nat := 65535

  /** Case-insensitive equality of byte strings. */
  type Fold = (Bytes, Bytes) -> bool

  predicate SameName(fold: Fold, a: Bytes, b: Bytes) {
    fold(TrimDot(a), TrimDot(b))
  }

  function Cut(d: Bytes, limit: nat): Bytes {
    if |d| <= limit then d else d[..limit]
  }

  /** Whether a datagram is taken as the response to the query with this ID and name. */
  predicate Accepts(fold: Fold, id: uint16, host: Bytes, d: Bytes) {
    match ParseSpec(Cut(d, BUFFER_SIZE))
    case Err(_) => false
    case Ok(resp) => resp.id == id && SameName(fold, resp.question.name, host)
  }

  /** The response is the first datagram that is accepted, wherever it stands. */
  function FirstAccepted(fold: Fold, id: uint16, host: Bytes, ds: seq<Bytes>): (r: Result<Response, LookupError>)
    ensures r.Ok? <==> exists d :: d in ds && Accepts(fold, id, host, d)
    ensures r.Ok? ==> r.value.id == id && SameName(fold, r.value.question.name, host)
    ensures r.Err? ==> r.error == Network
  {
    if ds == [] then Err(Network)
    else
      assert ds == [ds[0]] + ds[1..];
      if Accepts(fold, id, host, ds[0]) then Ok(ParseSpec(Cut(ds[0], BUFFER_SIZE)).value)
      else FirstAccepted(fold, id, host, ds[1..])
  }

  lemma FirstAcceptedStep(fold: Fold, id: uint16, host: Bytes, ds: seq<Bytes>, i: nat)
    requires i < |ds|
    ensures FirstAccepted(fold, id, host, ds[i..]) ==
      if Accepts(fold, id, host, ds[i]) then Ok(ParseSpec(Cut(ds[i], BUFFER_SIZE)).value)
      else FirstAccepted(fold, id, host, ds[i + 1..])
  {
    assert ds[i..][1..] == ds[i + 1..];
  }

  /** One read: the datagram replaces the start of the buffer. */
  method Receive(buf: array<byte>, d: Bytes) returns (n: nat)
    modifies buf
    ensures n <= buf.Length && buf[..n] == Cut(d, buf.Length)
  {
    n := if |d| < buf.Length then |d| else buf.Length;
    forall k | 0 <= k < n {
      buf[k] := d[k];
    }
  }

  /** Receives datagrams into one reused buffer until one is accepted or reading fails. */
  method Await(fold: Fold, id: uint16, host: Bytes, ds: seq<Bytes>) returns (r: Result<Response, LookupError>)
    ensures r == FirstAccepted(fold, id, host, ds)
  {
    var buf := new byte[BUFFER_SIZE](_ => 0);
    ghost var result := FirstAccepted(fold, id, host, ds);
    for i := 0 to |ds|
      invariant result == FirstAccepted(fold, id, host, ds[i..])
    {
      FirstAcceptedStep(fold, id, host, ds, i);
      var n := Receive(buf, ds[i]);
      var resp := Parse(buf[..n]);
      if resp.Err? || resp.value.id != id || !SameName(fold, resp.value.question.name, host) {
        continue;
      }
      return Ok(resp.value);
    }
    return Err(Network);
  }

  method UdpExchange(fold: Fold, id: uint16, host: Bytes, sent: bool, ds: seq<Bytes>)
      returns (r: Result<Response, LookupError>, query: Bytes)
    ensures query == if ValidName(host) then QueryBytes(id, host, 1) else []
    ensures r == if !ValidName(host) then Err(BadName)
                 else if !sent then Err(Network)
                 else FirstAccepted(fold, id, host, ds)
  {
    var q := Query(id, host, TYPE_A);
    if q.Err? {
      return Err(BadName), [];
    }
    query := q.value;
    if !sent {
      return Err(Network), query;
    }
    r := Await(fold, id, host, ds);
  }

  /** The addresses a resolver reports: IPv4 ones, in order, mapped ones unwrapped. */
  function V4Addrs(addrs: seq<Addr>): (r: seq<Addr>)
    ensures forall a :: a in r ==> a.V4?
  {
    if addrs == [] then []
    else (if addrs[0].Is4() || addrs[0].Is4In6() then [addrs[0].Unmap()] else []) + V4Addrs(addrs[1..])
  }

  /** What a response code and IPv4 addresses mean to the caller. */
  function Meaning(rcode: nat, addrs: seq<Addr>): Result<seq<Addr>, LookupError> {
    if rcode == 3 then Err(NxDomain)
    else if rcode != 0 then Err(RCode(rcode))
    else if addrs == [] then Err(NoAnswer)
    else Ok(addrs)
  }

  function Answered(rcode: nat, addrs: seq<Addr>): Result<seq<Addr>, LookupError> {
    Meaning(rcode, V4Addrs(addrs))
  }

  lemma {:induction false} V4AddrsSnoc(addrs: seq<Addr>, a: Addr)
    ensures V4Addrs(addrs + [a]) == V4Addrs(addrs) + if a.Is4() || a.Is4In6() then [a.Unmap()] else []
  {
    if addrs == [] {
      assert addrs + [a] == [a];
    } else {
      V4AddrsSnoc(addrs[1..], a);
      assert (addrs + [a])[1..] == addrs[1..] + [a];
    }
  }

  method AddrsFrom(resp: Response) returns (r: Result<seq<Addr>, LookupError>)
    ensures r == Answered(resp.rcode, resp.addrs)
  {
    if resp.rcode == 3 {
      return Err(NxDomain);
    }
    if resp.rcode != 0 {
      return Err(RCode(resp.rcode));
    }
    var out: seq<Addr> := [];
    for i := 0 to |resp.addrs|
      invariant out == V4Addrs(resp.addrs[..i])
    {
      var a := resp.addrs[i];
      V4AddrsSnoc(resp.addrs[..i], a);
      assert resp.addrs[..i + 1] == resp.addrs[..i] + [a];
      if a.Is4() || a.Is4In6() {
        out := out + [a.Unmap()];
      }
    }
    assert resp.addrs[..|resp.addrs|] == resp.addrs;
    if |out| == 0 {
      return Err(NoAnswer);
    }
    return Ok(out);
  }

  /** UDP.Lookup for the datagrams that arrive, and the datagram it sends. */
  method UdpLookup(fold: Fold, id: uint16, host: Bytes, sent: bool, ds: seq<Bytes>)
      returns (r: Result<seq<Addr>, LookupError>, query: Bytes)
    ensures query == if ValidName(host) then QueryBytes(id, host, 1) else []
    ensures r == UdpLookupOf(fold, id, host, sent, ds)
  {
    var resp;
    resp, query := UdpExchange(fold, id, host, sent, ds);
    if resp.Err? {
      return Err(resp.error), query;
    }
    r := AddrsFrom(resp.value);
  }

  function UdpLookupOf(fold: Fold, id: uint16, host: Bytes, sent: bool, ds: seq<Bytes>)
    : Result<seq<Addr>, LookupError>
  {
    if !ValidName(host) then Err(BadName)
    else if !sent then Err(Network)
    else
      match FirstAccepted(fold, id, host, ds)
      case Err(e) => Err(e)
      case Ok(resp) => Answered(resp.rcode, resp.addrs)
  }

  /** What an HTTP exchange gives: nothing, or a status and as much of the body as could be read. */
  datatype Fetched = Failed | Fetched(status: int, body: Option<Bytes>)

  /** DoH.Lookup and the body it posts: neither the ID nor the question of the message is looked at. */
  method DohLookup(host: Bytes, fetched: Fetched) returns (r: Result<seq<Addr>, LookupError>, query: Bytes)
    ensures query == if ValidName(host) then QueryBytes(0, host, 1) else []
    ensures r == DohLookupOf(host, fetched)
  {
    var q := Query(0, host, TYPE_A);
    if q.Err? {
      return Err(BadName), [];
    }
    query := q.value;
    if fetched.Failed? {
      return Err(Network), query;
    }
    if fetched.status != 200 {
      return Err(HttpStatus(fetched.status)), query;
    }
    if fetched.body.None? {
      return Err(Network), query;
    }
    var msg := Parse(Cut(fetched.body.value, BODY_LIMIT));
    if msg.Err? {
      return Err(BadMessage), query;
    }
    r := AddrsFrom(msg.value);
  }

  function DohLookupOf(host: Bytes, fetched: Fetched): Result<seq<Addr>, LookupError> {
    if !ValidName(host) then Err(BadName)
    else if fetched.Failed? then Err(Network)
    else if fetched.status != 200 then Err(HttpStatus(fetched.status))
    else if fetched.body.None? then Err(Network)
    else
      match ParseSpec(Cut(fetched.body.value, BODY_LIMIT))
      case Err(_) => Err(BadMessage)
      case Ok(resp) => Answered(resp.rcode, resp.addrs)
  }
}
