// What the SOCKS5 client keeps: it reads the proxy's replies to the last byte and nothing
// of the tunnel, says what it was asked to say, and shows credentials only on request.
module Socks5Proofs {
  import opened Base
  import opened Socks5

  // -------------------------------------------- what a granting proxy sends

  /** A method reply (RFC 1928 section 3) choosing no authentication or user/password. */
  ghost predicate IsMethodReply(b: Bytes) {
    |b| == 2 && b[0] == 5 && (b[1] == 0 || b[1] == 2)
  }

  /** A successful authentication reply (RFC 1929 section 2); its version is not looked at. */
  ghost predicate IsAuthReply(b: Bytes) {
    |b| == 2 && b[1] == 0
  }

  /** A successful reply (RFC 1928 section 6): version, 0, reserved, type, bound address, port. */
  ghost predicate IsConnectReply(b: Bytes) {
    && |b| >= 5 && b[1] == 0
    && ((b[3] == 1 && |b| == 10) || (b[3] == 4 && |b| == 22) || (b[3] == 3 && |b| == b[4] as int + 7))
  }

  ghost predicate IsGrantOf(b: Bytes, choice: Bytes, auth: Bytes, reply: Bytes) {
    && b == choice + auth + reply
    && IsMethodReply(choice) && IsConnectReply(reply)
    && if choice[1] == 2 then IsAuthReply(auth) else auth == []
  }

  /** Everything a proxy says when it grants a tunnel. */
  ghost predicate IsGrant(b: Bytes) {
    exists choice, auth, reply :: IsGrantOf(b, choice, auth, reply)
  }

  /** The client's own messages fit: the endpoint, and the credentials when they are asked for. */
  ghost predicate WellPosed(user: Option<Credentials>, a: Address, asked: bool) {
    && a.Split? && a.port.Some? && (a.ip.None? ==> |a.host| <= 255)
    && (asked ==> CredentialsOf(user).Fit())
  }

  lemma GrantParts(b: Bytes)
    requires |b| >= 4 && IsMethodReply(b[..2])
    requires if b[1] == 2 then IsAuthReply(b[2..4]) && IsConnectReply(b[4..]) else IsConnectReply(b[2..])
    ensures IsGrant(b)
  {
    if b[1] == 2 {
      assert IsGrantOf(b, b[..2], b[2..4], b[4..]);
    } else {
      assert IsGrantOf(b, b[..2], [], b[2..]);
    }
  }

  /** A reply is granted exactly when it starts with a connect reply, whose length is what is read. */
  lemma ReplyIff(input: Bytes, reply: Bytes, tunnel: Bytes)
    requires input == reply + tunnel && IsConnectReply(reply)
    ensures Reply(input) == (None, |reply|)
  {
  }

  lemma ReplyGranted(input: Bytes)
    requires Reply(input).0.None?
    ensures IsConnectReply(input[..Reply(input).1])
  {
  }

  lemma GrantStart(b: Bytes)
    requires IsGrant(b)
    ensures |b| >= 7 && b[0] == 5 && (b[1] == 0 || b[1] == 2)
  {
  }

  /** After a full grant the client stops at its last byte: what follows is left in the stream. */
  lemma TunnelDataIsKept(user: Option<Credentials>, a: Address, grant: Bytes, tunnel: Bytes, accepts: nat)
    requires IsGrant(grant) && |grant| >= 2 && WellPosed(user, a, grant[1] == 2) && accepts >= 3
    ensures var o := Session(user, a, grant + tunnel, accepts);
      o.failure.None? && o.read == |grant| && (grant + tunnel)[o.read..] == tunnel
  {
    var choice, auth, reply :| IsGrantOf(grant, choice, auth, reply);
    var input := grant + tunnel;
    assert input[..2] == choice && input[2..] == auth + reply + tunnel;
    var n := 2 + |auth|;
    assert auth != [] ==> input[2..][..2] == auth && input[2..][1] == auth[1];
    assert input[1] == choice[1] && input[0] == choice[0];
    assert input[n..] == reply + tunnel;
    ReplyIff(input[n..], reply, tunnel);
  }

  /** A success means the bytes read are a full grant, and nothing but a grant. */
  lemma SuccessReadsAGrant(user: Option<Credentials>, a: Address, input: Bytes, accepts: nat)
    requires Session(user, a, input, accepts).failure.None?
    ensures IsGrant(input[..Session(user, a, input, accepts).read])
  {
    var first := Negotiation(user, input, accepts);
    var rest := input[first.read..];
    ReplyGranted(rest);
    var grant := input[..first.read + Reply(rest).1];
    SliceOfSlice(input, first.read, Reply(rest).1);
    assert grant[..2] == input[..2];
    if input[1] == 2 {
      assert grant[2..4] == input[2..4];
    }
    GrantParts(grant);
  }

  /** No grant is a proper prefix of another: where the tunnel begins is never ambiguous. */
  lemma GrantsArePrefixFree(a: Bytes, b: Bytes)
    requires IsGrant(a) && IsGrant(b) && a <= b
    ensures a == b
  {
    var addr := Split([], Some(0), None);
    GrantStart(a);
    GrantStart(b);
    TunnelDataIsKept(None, addr, a, b[|a|..], 3);
    TunnelDataIsKept(None, addr, b, [], 3);
    assert a + b[|a|..] == b && b + [] == b;
  }

  /** The client connects exactly when its own messages fit and the stream starts with a grant. */
  lemma SuccessIff(user: Option<Credentials>, a: Address, input: Bytes, accepts: nat)
    requires accepts >= 3
    ensures Session(user, a, input, accepts).failure.None? <==>
      exists n: nat :: 2 <= n <= |input| && IsGrant(input[..n]) && WellPosed(user, a, input[1] == 2)
  {
    var o := Session(user, a, input, accepts);
    if o.failure.None? {
      SuccessReadsAGrant(user, a, input, accepts);
      assert IsGrant(input[..o.read]);
    }
    forall n: nat | 2 <= n <= |input| && IsGrant(input[..n]) && WellPosed(user, a, input[1] == 2)
      ensures o.failure.None?
    {
      assert input[..n] + input[n..] == input;
      TunnelDataIsKept(user, a, input[..n], input[n..], accepts);
    }
  }

  // ------------------------------------------------- what is not looked at

  /** A grant as the standards spell it: version 5 and a zero reserved byte in the connect reply
      (RFC 1928 section 6), version 1 in the authentication reply (RFC 1929 section 2). */
  ghost predicate IsStrictGrant(b: Bytes) {
    exists choice, auth, reply ::
      && IsGrantOf(b, choice, auth, reply)
      && reply[0] == 5 && reply[2] == 0 && (auth != [] ==> auth[0] == 1)
  }

  /** The bytes of a grant that the client reads without looking, with the values they should have. */
  ghost predicate UnreadBytesInOrder(b: Bytes)
    requires |b| >= 7
  {
    if b[1] == 2 then b[2] == 1 && b[4] == 5 && b[6] == 0 else b[2] == 5 && b[4] == 0
  }

  lemma StrictGrantIff(b: Bytes)
    requires IsGrant(b)
    ensures |b| >= 7 && (IsStrictGrant(b) <==> UnreadBytesInOrder(b))
  {
    GrantStart(b);
    var choice, auth, reply :| IsGrantOf(b, choice, auth, reply);
    forall c, u, r | IsGrantOf(b, c, u, r) ensures c == choice && u == auth && r == reply {
      assert c == b[..2] == choice;
      assert |u| == |auth| && u == b[2..2 + |u|] && auth == b[2..2 + |auth|];
      assert r == b[2 + |u|..] && reply == b[2 + |auth|..];
    }
    assert reply == b[2 + |auth|..] && (auth != [] ==> auth == b[2..4]);
  }

  /** A success is strict exactly when the bytes the client skips have the values the standards give them. */
  lemma SuccessIsStrictIff(user: Option<Credentials>, a: Address, input: Bytes, accepts: nat)
    requires Session(user, a, input, accepts).failure.None?
    ensures var read := input[..Session(user, a, input, accepts).read];
      |read| >= 7 && (IsStrictGrant(read) <==> UnreadBytesInOrder(read))
  {
    SuccessReadsAGrant(user, a, input, accepts);
    StrictGrantIff(input[..Session(user, a, input, accepts).read]);
  }

  /** Replies with wrong version bytes that are accepted, without and with authentication. */
  lemma LenientGrants(ip: Octets16, c: Credentials, port: int, accepts: nat)
    requires c.Fit() && accepts >= 3
    ensures var a, plain, asked := Split([], Some(port), Some(ip)), [5, 0, 0, 0, 0, 1, 0, 0, 0, 0, 0, 0],
        [5, 2, 0, 0, 5, 0, 0, 1, 0, 0, 0, 0, 0, 0];
      && Session(None, a, plain, accepts).failure.None? && !IsStrictGrant(plain)
      && Session(Some(c), a, asked, accepts).failure.None? && !IsStrictGrant(asked)
  {
    var a := Split([], Some(port), Some(ip));
    var plain: Bytes := [5, 0, 0, 0, 0, 1, 0, 0, 0, 0, 0, 0];
    var asked: Bytes := [5, 2, 0, 0, 5, 0, 0, 1, 0, 0, 0, 0, 0, 0];
    GrantParts(plain);
    GrantParts(asked);
    StrictGrantIff(plain);
    StrictGrantIff(asked);
    TunnelDataIsKept(None, a, plain, [], accepts);
    TunnelDataIsKept(Some(c), a, asked, [], accepts);
    assert plain + [] == plain && asked + [] == asked;
  }

  // --------------------------------------------- what the proxy understands

  datatype Endpoint = Ip(addr: Addr) | Domain(name: Bytes)

  /** What the client's side of a dialogue says. */
  datatype Dialogue = Dialogue(methods: Bytes, auth: Option<Credentials>, endpoint: Endpoint, port: uint16)

  /** The method-selection message of RFC 1928 section 3, and what follows it. */
  function ReadMethods(s: Bytes): Option<(Bytes, Bytes)> {
    if |s| < 2 || s[0] != 5 || |s| - 2 < s[1] as int then None
    else
      var n: nat := s[1];
      Some((s[2..2 + n], s[2 + n..]))
  }

  /** A length byte and that many bytes, and what follows them. */
  function ReadCounted(s: Bytes): Option<(Bytes, Bytes)> {
    if |s| < 1 || |s| - 1 < s[0] as int then None
    else
      var n: nat := s[0];
      Some((s[1..1 + n], s[1 + n..]))
  }

  /** The username/password request of RFC 1929 section 2. */
  function ReadCredentials(s: Bytes): Option<(Credentials, Bytes)> {
    if |s| < 1 || s[0] != 1 then None
    else
      match ReadCounted(s[1..])
      case None => None
      case Some((user, rest)) =>
        match ReadCounted(rest)
        case None => None
        case Some((pass, after)) => Some((Credentials(user, pass), after))
  }

  /** The address and port fields of RFC 1928 sections 4 and 5. */
  function ReadEndpoint(s: Bytes): Option<(Endpoint, Bytes)> {
    if |s| < 1 then None
    else if s[0] == 1 && |s| >= 5 then Some((Ip(V4(s[1..5])), s[5..]))
    else if s[0] == 4 && |s| >= 17 then Some((Ip(V6(s[1..17], "")), s[17..]))
    else if s[0] != 3 then None
    else
      match ReadCounted(s[1..])
      case None => None
      case Some((name, rest)) => Some((Domain(name), rest))
  }

  /** A CONNECT request of RFC 1928 section 4 that ends the client's side. */
  function ReadRequest(s: Bytes): Option<(Endpoint, uint16)> {
    if |s| < 3 || s[..3] != [5, 1, 0] then None
    else
      match ReadEndpoint(s[3..])
      case None => None
      case Some((endpoint, rest)) => if |rest| == 2 then Some((endpoint, U16(rest, 0))) else None
  }

  /** The whole client side, as a proxy that made the given choice reads it. */
  function ReadDialogue(s: Bytes, choice: byte): Option<Dialogue> {
    match ReadMethods(s)
    case None => None
    case Some((methods, rest)) =>
      if choice != 2 then
        match ReadRequest(rest)
        case None => None
        case Some((endpoint, port)) => Some(Dialogue(methods, None, endpoint, port))
      else
        match ReadCredentials(rest)
        case None => None
        case Some((cred, after)) =>
          match ReadRequest(after)
          case None => None
          case Some((endpoint, port)) => Some(Dialogue(methods, Some(cred), endpoint, port))
  }

  /** The endpoint asked for; an IPv4-mapped address is the IPv4 address. */
  function EndpointOf(a: Address): Endpoint
    requires a.Split?
  {
    match a.ip
    case Some(ip) => Ip(V6(ip, "").Unmap())
    case None => Domain(a.host)
  }

  lemma MethodsRead(user: Option<Credentials>, rest: Bytes)
    ensures ReadMethods(Greeting(user) + rest) == Some((if user.Some? then [0, 2] else [0], rest))
  {
    var s := Greeting(user) + rest;
    var n: nat := s[1];
    assert s[..2 + n] == Greeting(user) && s[2 + n..] == rest;
    assert s[2..2 + n] == Greeting(user)[2..];
  }

  lemma CountedRead(part: Bytes, rest: Bytes)
    requires |part| <= 255
    ensures ReadCounted([|part| as byte] + part + rest) == Some((part, rest))
  {
    var s := [|part| as byte] + part + rest;
    assert s[1..1 + |part|] == part && s[1 + |part|..] == rest;
  }

  lemma CredentialsRead(c: Credentials, rest: Bytes)
    requires c.Fit()
    ensures ReadCredentials(AuthMessage(c) + rest) == Some((c, rest))
  {
    var s := AuthMessage(c) + rest;
    var pass := [|c.pass| as byte] + c.pass;
    assert s[1..] == [|c.user| as byte] + c.user + (pass + rest);
    CountedRead(c.user, pass + rest);
    CountedRead(c.pass, rest);
  }

  lemma EndpointRead(a: Address, rest: Bytes)
    requires a.Split? && (a.ip.None? ==> |a.host| <= 255)
    ensures ReadEndpoint(AddressPart(a) + rest) == Some((EndpointOf(a), rest))
  {
    var s := AddressPart(a) + rest;
    if a.ip.None? {
      assert s[1..] == [|a.host| as byte] + a.host + rest;
      CountedRead(a.host, rest);
    } else {
      var n := |AddressPart(a)|;
      assert s[1..n] == AddressPart(a)[1..] && s[n..] == rest;
    }
  }

  lemma RequestRead(a: Address)
    requires a.Split? && a.port.Some? && (a.ip.None? ==> |a.host| <= 255)
    ensures ReadRequest(RequestMessage(a)) == Some((EndpointOf(a), a.port.value % 0x1_0000))
  {
    var s, port := RequestMessage(a), Be16(a.port.value % 0x1_0000);
    assert s == [5, 1, 0] + (AddressPart(a) + port);
    assert s[..3] == [5, 1, 0] && s[3..] == AddressPart(a) + port;
    EndpointRead(a, port);
  }

  /** What a successful client sent. */
  lemma SentOnSuccess(user: Option<Credentials>, a: Address, input: Bytes, accepts: nat)
    requires Session(user, a, input, accepts).failure.None?
    ensures |input| >= 2 && WellPosed(user, a, input[1] == 2)
    ensures Session(user, a, input, accepts).sent ==
      Greeting(user) + ((if input[1] == 2 then AuthMessage(CredentialsOf(user)) else []) + RequestMessage(a))
  {
    if input[1] == 2 {
      ConcatAssoc(Greeting(user), AuthMessage(CredentialsOf(user)), RequestMessage(a));
    } else {
      assert [] + RequestMessage(a) == RequestMessage(a);
    }
  }

  /** What the caller asked for: its credentials, its endpoint, and the port as far as 16 bits hold it. */
  function Intended(user: Option<Credentials>, a: Address, choice: byte): Dialogue
    requires a.Split? && a.port.Some?
  {
    Dialogue(if user.Some? then [0, 2] else [0], if choice == 2 then Some(CredentialsOf(user)) else None,
             EndpointOf(a), a.port.value % 0x1_0000)
  }

  lemma DialogueRead(user: Option<Credentials>, a: Address, choice: byte)
    requires WellPosed(user, a, choice == 2)
    ensures ReadDialogue(
        Greeting(user) + ((if choice == 2 then AuthMessage(CredentialsOf(user)) else []) + RequestMessage(a)), choice)
      == Some(Intended(user, a, choice))
  {
    var auth := if choice == 2 then AuthMessage(CredentialsOf(user)) else [];
    MethodsRead(user, auth + RequestMessage(a));
    RequestRead(a);
    if choice == 2 {
      CredentialsRead(CredentialsOf(user), RequestMessage(a));
    } else {
      assert auth + RequestMessage(a) == RequestMessage(a);
    }
  }

  /** What a successful client said reads, byte for byte, as what the caller asked for. */
  lemma DialogueIsUnderstood(user: Option<Credentials>, a: Address, input: Bytes, accepts: nat)
    requires Session(user, a, input, accepts).failure.None?
    ensures ReadDialogue(Session(user, a, input, accepts).sent, input[1]) == Some(Intended(user, a, input[1]))
  {
    SentOnSuccess(user, a, input, accepts);
    DialogueRead(user, a, input[1]);
  }

  /** The port arrives unchanged exactly when it is one; the proxy's choice was on offer unless it
      asked a client without a user for credentials, which the client then makes up. */
  lemma IntendedIff(user: Option<Credentials>, a: Address, input: Bytes, accepts: nat)
    requires Session(user, a, input, accepts).failure.None?
    ensures var d := Intended(user, a, input[1]);
      && (d.port == a.port.value <==> 0 <= a.port.value <= 65535)
      && (input[1] in d.methods <==> user.Some? || input[1] != 2)
  {
    assert input[1] == 0 || input[1] == 2;
  }

  /** RFC 1929 section 2: version 1, then a name and a password of 1 to 255 bytes. */
  ghost predicate MeetsRfc1929(m: Bytes) {
    match ReadCredentials(m)
    case None => false
    case Some((c, rest)) => 1 <= |c.user| <= 255 && 1 <= |c.pass| <= 255 && rest == []
  }

  /** The client also sends empty names and passwords, which the standard does not allow. */
  lemma CredentialsMeetRfcIff(c: Credentials)
    requires c.Fit()
    ensures MeetsRfc1929(AuthMessage(c)) <==> c.user != [] && c.pass != []
  {
    CredentialsRead(c, []);
    assert AuthMessage(c) + [] == AuthMessage(c);
  }

  /** Two clients with different credentials are indistinguishable unless the proxy asks for them. */
  lemma CredentialsOnlyOnRequest(c: Credentials, d: Credentials, a: Address, input: Bytes, accepts: nat)
    requires !([5, 2] <= input)
    ensures Session(Some(c), a, input, accepts) == Session(Some(d), a, input, accepts)
  {
    if |input| >= 2 && input[0] == 5 {
      assert input[..2] == [5, input[1]];
    }
  }

  // ------------------------------------------------ which failure it is

  /** Method selection and authentication went well, and took the first `n` bytes. */
  ghost predicate Negotiated(user: Option<Credentials>, input: Bytes, accepts: nat, n: nat) {
    && 2 <= n <= |input| && input[0] == 5
    && if input[1] == 2 then
         n == 4 && CredentialsOf(user).Fit() && accepts >= 2 && input[3] == 0
       else
         n == 2 && input[1] == 0 && accepts >= 1
  }

  /** The request was sent behind the first `n` bytes. */
  ghost predicate Asked(user: Option<Credentials>, a: Address, input: Bytes, accepts: nat, n: nat) {
    && Negotiated(user, input, accepts, n) && accepts > n / 2
    && (a.Split? && a.ip.None? ==> |a.host| <= 255)
  }

  /** Each failure is reported exactly for what the caller, or the proxy, did wrong. */
  lemma FailureIff(user: Option<Credentials>, a: Address, input: Bytes, accepts: nat)
    ensures var f := Session(user, a, input, accepts).failure;
      && (f == Some(BadAddress) <==> a.Unsplittable?)
      && (f == Some(BadPort) <==> a.Split? && a.port == None)
      && (a.Split? && a.port.Some? ==>
            && (f == Some(BadVersion) <==> accepts >= 1 && |input| >= 2 && input[0] != 5)
            && (f == Some(NoAcceptableMethod) <==>
                  accepts >= 1 && |input| >= 2 && input[0] == 5 && input[1] != 0 && input[1] != 2)
            && (f == Some(CredentialsTooLong) <==>
                  accepts >= 1 && |input| >= 2 && input[0] == 5 && input[1] == 2 && !CredentialsOf(user).Fit())
            && (f == Some(AuthFailed) <==>
                  && accepts >= 2 && |input| >= 4 && input[0] == 5 && input[1] == 2 && CredentialsOf(user).Fit()
                  && input[3] != 0)
            && (f == Some(HostTooLong) <==>
                  (exists n :: Negotiated(user, input, accepts, n)) && a.ip.None? && |a.host| > 255))
  {
    var first := Negotiation(user, input, accepts);
    if first.failure.None? {
      assert Negotiated(user, input, accepts, first.read);
    }
    if n :| Negotiated(user, input, accepts, n) {
      assert first.failure.None?;
    }
  }

  /** A refusal carries the proxy's reply code; another address type than the three is rejected. */
  lemma RefusalIff(user: Option<Credentials>, a: Address, input: Bytes, accepts: nat, n: nat)
    requires a.Split? && a.port.Some? && Asked(user, a, input, accepts, n)
    ensures var f := Session(user, a, input, accepts).failure;
      && (forall code :: f == Some(Refused(code)) <==> |input| >= n + 4 && input[n + 1] == code && code != 0)
      && (f == Some(BadAddressType) <==>
            |input| >= n + 4 && input[n + 1] == 0 && input[n + 3] != 1 && input[n + 3] != 3 && input[n + 3] != 4)
  {
    var first := Negotiation(user, input, accepts);
    assert first.failure.None? && first.read == n;
    var rest := input[n..];
    assert |input| >= n + 4 ==> rest[1] == input[n + 1] && rest[3] == input[n + 3];
  }
}
