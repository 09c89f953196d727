// Comparing what independent resolvers say about one name (internal/dnscheck/check.go).
// Which addresses are known block pages or bogons is a parameter.
module DnsCheck {
  import opened Base
  import NetErrors

  datatype Kind = NoKind | System | Udp | Doh

  /** A failed lookup: a negative DNS response, another DNS error code, or a network error. */
  datatype LookupError = NxDomain | NoAnswer | RCode(code: int) | Net(kind: NetErrors.ErrKind)

  datatype Failure = NoFailure | FailNxDomain | FailNoAnswer | FailTimeout | FailRefused | FailError

  datatype Answer = Answer(resolver: string, kind: Kind, addrs: seq<Addr>, err: Option<LookupError>) {
    predicate OK() {
      err.None? && addrs != []
    }

    /** A DNS response arrived, even a negative one. */
    predicate Answered() {
      err.None? || !err.value.Net?
    }

    function FailureKind(): Failure {
      match err
      case None => NoFailure
      case Some(NxDomain) => FailNxDomain
      case Some(NoAnswer) => FailNoAnswer
      case Some(RCode(_)) => FailError
      case Some(Net(k)) => if k.Timeout? then FailTimeout else if k.Refused? then FailRefused else FailError
    }
  }

  /** What is stored for a resolver that is not configured. */
  const NO_ANSWER := Answer("", NoKind, [], None)

  datatype Lookups = Lookups(system: Answer, public: seq<Answer>, doh: seq<Answer>) {
    /** plain[0] is the resolver under test. */
    function Plain(): seq<Answer> { [system] + public }
  }

  /** The address tables: known block-page addresses, and addresses that are not public. */
  datatype Tables = Tables(isBlock: Addr -> bool, isBogon: Addr -> bool)

  datatype Analysis = Analysis(
    reference: seq<Addr>,
    referenceKind: Kind,
    blockIPs: seq<Addr>,
    bogons: seq<Addr>,
    suspects: seq<Addr>,
    injectedPublic: bool,
    systemFailure: Failure,
    unresolvable: bool,
    dohUnavailable: bool,
    allPlainTimeout: bool,
    dropped: bool
  ) {
    predicate Poisoned() {
      blockIPs != [] || bogons != []
    }
  }

  // ---------------------------------------------------------- address lists

  /** `a` followed by the elements of `b` that are new. */
  function Union(a: seq<Addr>, b: seq<Addr>): seq<Addr>
    decreases |b|
  {
    if b == [] then a else Union(if b[0] in a then a else a + [b[0]], b[1..])
  }

  lemma {:induction false} UnionMembers(a: seq<Addr>, b: seq<Addr>)
    ensures forall x :: x in Union(a, b) <==> x in a || x in b
    ensures NoDup(a) ==> NoDup(Union(a, b))
    decreases |b|
  {
    if b != [] {
      assert b == [b[0]] + b[1..];
      UnionMembers(if b[0] in a then a else a + [b[0]], b[1..]);
    }
  }

  lemma {:induction false} UnionConcat(a: seq<Addr>, b: seq<Addr>, c: seq<Addr>)
    ensures Union(a, b + c) == Union(Union(a, b), c)
    decreases |b|
  {
    if b == [] {
      assert b + c == c;
    } else {
      assert (b + c)[1..] == b[1..] + c;
      UnionConcat(if b[0] in a then a else a + [b[0]], b[1..], c);
    }
  }

  method UnionOf(a: seq<Addr>, b: seq<Addr>) returns (r: seq<Addr>)
    ensures r == Union(a, b)
  {
    r := a;
    for i := 0 to |b|
      invariant Union(a, b) == Union(r, b[i..])
    {
      assert b[i..][1..] == b[i + 1..];
      var found := false;
      for j := 0 to |r|
        invariant !found && b[i] !in r[..j]
      {
        if r[j] == b[i] {
          found := true;
          break;
        }
      }
      assert found == (b[i] in r);
      if !found {
        r := r + [b[i]];
      }
    }
  }

  predicate Intersects(a: seq<Addr>, b: seq<Addr>) {
    exists x :: x in a && x in b
  }

  method IntersectsOf(a: seq<Addr>, b: seq<Addr>) returns (r: bool)
    ensures r == Intersects(a, b)
  {
    for i := 0 to |a|
      invariant forall x :: x in a[..i] ==> x !in b
    {
      for j := 0 to |b|
        invariant a[i] !in b[..j]
      {
        if a[i] == b[j] {
          assert a[i] in a && a[i] in b;
          return true;
        }
      }
    }
    return false;
  }

  /** All addresses of the successful answers, in order. */
  function AddrsOf(answers: seq<Answer>): seq<Addr> {
    if answers == [] then []
    else (if answers[0].OK() then answers[0].addrs else []) + AddrsOf(answers[1..])
  }

  lemma {:induction false} AddrsOfMembers(answers: seq<Answer>)
    ensures forall x :: x in AddrsOf(answers) <==> exists ans :: ans in answers && ans.OK() && x in ans.addrs
  {
    if answers != [] {
      assert answers == [answers[0]] + answers[1..];
      AddrsOfMembers(answers[1..]);
    }
  }

  lemma {:induction false} AddrsOfSnoc(answers: seq<Answer>, ans: Answer)
    ensures AddrsOf(answers + [ans]) == AddrsOf(answers) + if ans.OK() then ans.addrs else []
  {
    if answers == [] {
      assert answers + [ans] == [ans];
    } else {
      assert (answers + [ans])[1..] == answers[1..] + [ans];
      AddrsOfSnoc(answers[1..], ans);
    }
  }

  // -------------------------------------------------------------- analysis

  predicate HasBad(t: Tables, addrs: seq<Addr>) {
    exists x :: x in addrs && t.isBlock(x)
  }

  /** A plain answer good enough to stand in for the missing DoH reference. */
  predicate Clean(t: Tables, ans: Answer) {
    ans.OK() && !HasBad(t, ans.addrs)
  }

  function FirstClean(t: Tables, answers: seq<Answer>): (r: Option<Answer>)
    ensures r.Some? ==> r.value in answers && Clean(t, r.value)
    ensures r.None? <==> forall ans :: ans in answers ==> !Clean(t, ans)
  {
    if answers == [] then None
    else
      assert answers == [answers[0]] + answers[1..];
      if Clean(t, answers[0]) then Some(answers[0]) else FirstClean(t, answers[1..])
  }

  /** The addresses believed to be right and where they come from: DoH, else public, else system. */
  function ReferenceOf(t: Tables, r: Lookups): (seq<Addr>, Kind) {
    if AddrsOf(r.doh) != [] then (Union([], AddrsOf(r.doh)), Doh)
    else
      match FirstClean(t, r.public + [r.system])
      case Some(ans) => (Union([], ans.addrs), ans.kind)
      case None => ([], NoKind)
  }

  predicate RefPublic(t: Tables, reference: seq<Addr>) {
    exists x :: x in reference && !t.isBogon(x)
  }

  /** An address no honest resolver would have given. */
  predicate Bad(t: Tables, refPublic: bool, x: Addr) {
    t.isBlock(x) || (refPublic && t.isBogon(x))
  }

  predicate AnyBad(t: Tables, refPublic: bool, addrs: seq<Addr>) {
    exists x :: x in addrs && Bad(t, refPublic, x)
  }

  /** The block-page addresses in `s`. */
  function BlocksIn(t: Tables, s: seq<Addr>): seq<Addr> {
    if s == [] then []
    else (if t.isBlock(s[0]) then [s[0]] else []) + BlocksIn(t, s[1..])
  }

  /** The bogons in `s` that are not block-page addresses, when the reference is public. */
  function BogonsIn(t: Tables, refPublic: bool, s: seq<Addr>): seq<Addr> {
    if s == [] then []
    else (if !t.isBlock(s[0]) && refPublic && t.isBogon(s[0]) then [s[0]] else []) + BogonsIn(t, refPublic, s[1..])
  }

  lemma {:induction false} BadMembers(t: Tables, refPublic: bool, s: seq<Addr>)
    ensures forall x :: x in BlocksIn(t, s) <==> x in s && t.isBlock(x)
    ensures forall x :: x in BogonsIn(t, refPublic, s) <==> x in s && !t.isBlock(x) && refPublic && t.isBogon(x)
  {
    if s != [] {
      assert s == [s[0]] + s[1..];
      BadMembers(t, refPublic, s[1..]);
    }
  }

  lemma {:induction false} BlocksInConcat(t: Tables, a: seq<Addr>, b: seq<Addr>)
    ensures BlocksIn(t, a + b) == BlocksIn(t, a) + BlocksIn(t, b)
  {
    if a == [] {
      assert a + b == b;
    } else {
      assert (a + b)[1..] == a[1..] + b;
      BlocksInConcat(t, a[1..], b);
    }
  }

  lemma {:induction false} BogonsInConcat(t: Tables, refPublic: bool, a: seq<Addr>, b: seq<Addr>)
    ensures BogonsIn(t, refPublic, a + b) == BogonsIn(t, refPublic, a) + BogonsIn(t, refPublic, b)
  {
    if a == [] {
      assert a + b == b;
    } else {
      assert (a + b)[1..] == a[1..] + b;
      BogonsInConcat(t, refPublic, a[1..], b);
    }
  }

  predicate Injected(t: Tables, r: Lookups, refPublic: bool, kind: Kind) {
    kind == Doh && exists ans :: ans in r.public && ans.OK() && AnyBad(t, refPublic, ans.addrs)
  }

  function AnalysisOf(t: Tables, r: Lookups): Analysis {
    var (reference, kind) := ReferenceOf(t, r);
    var refPublic := RefPublic(t, reference);
    var plain := AddrsOf(r.Plain());
    var blockIPs, bogons := Union([], BlocksIn(t, plain)), Union([], BogonsIn(t, refPublic, plain));
    Analysis(
      reference, kind, blockIPs, bogons,
      if r.system.OK() && reference != [] && blockIPs == [] && bogons == [] && !Intersects(r.system.addrs, reference)
      then r.system.addrs else [],
      Injected(t, r, refPublic, kind),
      if !r.system.OK() && r.system.resolver != "" && reference != [] then r.system.FailureKind() else NoFailure,
      reference == [] && blockIPs == [] && bogons == [],
      r.doh != [] && forall ans :: ans in r.doh ==> !ans.Answered(),
      r.public != [] && forall ans :: ans in r.Plain() && ans.resolver != "" ==> ans.FailureKind() == FailTimeout,
      false)
  }

  method HasBadOf(t: Tables, addrs: seq<Addr>) returns (bad: bool)
    ensures bad == HasBad(t, addrs)
  {
    for i := 0 to |addrs|
      invariant forall x :: x in addrs[..i] ==> !t.isBlock(x)
    {
      if t.isBlock(addrs[i]) {
        return true;
      }
    }
    return false;
  }

  method AllBogonOf(t: Tables, addrs: seq<Addr>) returns (all: bool)
    ensures all == forall x :: x in addrs ==> t.isBogon(x)
  {
    for i := 0 to |addrs|
      invariant forall x :: x in addrs[..i] ==> t.isBogon(x)
    {
      if !t.isBogon(addrs[i]) {
        return false;
      }
    }
    return true;
  }

  /** The first two loops of Analyze. */
  method FindReference(t: Tables, r: Lookups) returns (reference: seq<Addr>, kind: Kind)
    ensures (reference, kind) == ReferenceOf(t, r)
  {
    reference, kind := [], NoKind;
    for i := 0 to |r.doh|
      invariant reference == Union([], AddrsOf(r.doh[..i]))
      invariant kind == if AddrsOf(r.doh[..i]) != [] then Doh else NoKind
    {
      var ans := r.doh[i];
      AddrsOfSnoc(r.doh[..i], ans);
      assert r.doh[..i + 1] == r.doh[..i] + [ans];
      if ans.OK() {
        UnionConcat([], AddrsOf(r.doh[..i]), ans.addrs);
        reference := UnionOf(reference, ans.addrs);
        kind := Doh;
      } else {
        assert AddrsOf(r.doh[..i]) + [] == AddrsOf(r.doh[..i]);
      }
    }
    assert r.doh[..|r.doh|] == r.doh;
    UnionEmptiness(AddrsOf(r.doh));
    if |reference| == 0 {
      var fallback := r.public + [r.system];
      for i := 0 to |fallback|
        invariant FirstClean(t, fallback) == FirstClean(t, fallback[i..])
        invariant reference == [] && kind == NoKind
      {
        assert fallback[i..][1..] == fallback[i + 1..];
        var ans := fallback[i];
        var bad := HasBadOf(t, ans.addrs);
        if ans.OK() && !bad {
          reference := UnionOf(reference, ans.addrs);
          kind := ans.kind;
          break;
        }
      }
    }
  }

  lemma UnionEmptiness(s: seq<Addr>)
    ensures Union([], s) == [] <==> s == []
  {
    UnionMembers([], s);
    if s != [] {
      assert s[0] in Union([], s);
    }
  }

  lemma AnyBadSnoc(t: Tables, refPublic: bool, addrs: seq<Addr>, x: Addr)
    ensures AnyBad(t, refPublic, addrs + [x]) <==> AnyBad(t, refPublic, addrs) || Bad(t, refPublic, x)
  {
    forall y | y in addrs ensures y in addrs + [x] {
    }
    assert x in addrs + [x];
  }

  lemma UnionSplit(a: seq<Addr>, x: Addr, keep: bool, rest: seq<Addr>)
    ensures Union(a, (if keep then [x] else []) + rest) == Union(if keep && x !in a then a + [x] else a, rest)
  {
    if keep {
      assert ([x] + rest)[1..] == rest;
    } else {
      assert [] + rest == rest;
    }
  }

  /** One answer of the plain-answer loop: its bad addresses join the lists. */
  method ScanAnswer(t: Tables, refPublic: bool, addrs: seq<Addr>, blocks: seq<Addr>, bogs: seq<Addr>)
      returns (blockIPs: seq<Addr>, bogons: seq<Addr>, bad: bool)
    ensures blockIPs == Union(blocks, BlocksIn(t, addrs))
    ensures bogons == Union(bogs, BogonsIn(t, refPublic, addrs))
    ensures bad == AnyBad(t, refPublic, addrs)
  {
    blockIPs, bogons, bad := blocks, bogs, false;
    for i := 0 to |addrs|
      invariant Union(blocks, BlocksIn(t, addrs)) == Union(blockIPs, BlocksIn(t, addrs[i..]))
      invariant Union(bogs, BogonsIn(t, refPublic, addrs)) == Union(bogons, BogonsIn(t, refPublic, addrs[i..]))
      invariant bad == AnyBad(t, refPublic, addrs[..i])
    {
      var ip := addrs[i];
      assert addrs[i..][1..] == addrs[i + 1..];
      assert addrs[..i + 1] == addrs[..i] + [ip];
      AnyBadSnoc(t, refPublic, addrs[..i], ip);
      UnionSplit(blockIPs, ip, t.isBlock(ip), BlocksIn(t, addrs[i + 1..]));
      UnionSplit(bogons, ip, !t.isBlock(ip) && refPublic && t.isBogon(ip), BogonsIn(t, refPublic, addrs[i + 1..]));
      if t.isBlock(ip) {
        blockIPs := UnionOf(blockIPs, [ip]);
        bad := true;
      } else if refPublic && t.isBogon(ip) {
        bogons := UnionOf(bogons, [ip]);
        bad := true;
      }
    }
    assert addrs[..|addrs|] == addrs;
  }

  /** The block-page addresses listed after the first `n` plain answers. */
  function BlocksAfter(t: Tables, plain: seq<Answer>, n: nat): seq<Addr>
    requires n <= |plain|
  {
    if n == 0 then []
    else if plain[n - 1].OK() then Union(BlocksAfter(t, plain, n - 1), BlocksIn(t, plain[n - 1].addrs))
    else BlocksAfter(t, plain, n - 1)
  }

  /** The bogons listed after the first `n` plain answers. */
  function BogonsAfter(t: Tables, refPublic: bool, plain: seq<Answer>, n: nat): seq<Addr>
    requires n <= |plain|
  {
    if n == 0 then []
    else if plain[n - 1].OK() then
      Union(BogonsAfter(t, refPublic, plain, n - 1), BogonsIn(t, refPublic, plain[n - 1].addrs))
    else BogonsAfter(t, refPublic, plain, n - 1)
  }

  /** The addresses an answer contributes. */
  function Given(ans: Answer): seq<Addr> {
    if ans.OK() then ans.addrs else []
  }

  lemma AddrsOfPrefix(plain: seq<Answer>, n: nat)
    requires n < |plain|
    ensures AddrsOf(plain[..n + 1]) == AddrsOf(plain[..n]) + Given(plain[n])
  {
    AddrsOfSnoc(plain[..n], plain[n]);
    assert plain[..n + 1] == plain[..n] + [plain[n]];
  }

  lemma BlocksUnion(t: Tables, a: seq<Addr>, b: seq<Addr>)
    ensures Union([], BlocksIn(t, a + b)) == Union(Union([], BlocksIn(t, a)), BlocksIn(t, b))
  {
    BlocksInConcat(t, a, b);
    UnionConcat([], BlocksIn(t, a), BlocksIn(t, b));
  }

  lemma BogonsUnion(t: Tables, refPublic: bool, a: seq<Addr>, b: seq<Addr>)
    ensures Union([], BogonsIn(t, refPublic, a + b))
      == Union(Union([], BogonsIn(t, refPublic, a)), BogonsIn(t, refPublic, b))
  {
    BogonsInConcat(t, refPublic, a, b);
    UnionConcat([], BogonsIn(t, refPublic, a), BogonsIn(t, refPublic, b));
  }

  lemma {:induction false} BlocksAfterAll(t: Tables, plain: seq<Answer>, n: nat)
    requires n <= |plain|
    ensures BlocksAfter(t, plain, n) == Union([], BlocksIn(t, AddrsOf(plain[..n])))
  {
    if n > 0 {
      var m, ans := n - 1, plain[n - 1];
      BlocksAfterAll(t, plain, m);
      AddrsOfPrefix(plain, m);
      BlocksUnion(t, AddrsOf(plain[..m]), Given(ans));
    }
  }

  lemma {:induction false} BogonsAfterAll(t: Tables, refPublic: bool, plain: seq<Answer>, n: nat)
    requires n <= |plain|
    ensures BogonsAfter(t, refPublic, plain, n) == Union([], BogonsIn(t, refPublic, AddrsOf(plain[..n])))
  {
    if n > 0 {
      var m, ans := n - 1, plain[n - 1];
      BogonsAfterAll(t, refPublic, plain, m);
      AddrsOfPrefix(plain, m);
      BogonsUnion(t, refPublic, AddrsOf(plain[..m]), Given(ans));
    }
  }

  /** A bad address in a public answer among the first `n` plain ones. */
  predicate InjectedBefore(t: Tables, refPublic: bool, kind: Kind, plain: seq<Answer>, n: nat)
    requires n <= |plain|
  {
    kind == Doh && exists k :: 1 <= k < n && plain[k].OK() && AnyBad(t, refPublic, plain[k].addrs)
  }

  lemma InjectedStep(t: Tables, refPublic: bool, kind: Kind, plain: seq<Answer>, i: nat)
    requires i < |plain|
    ensures InjectedBefore(t, refPublic, kind, plain, i + 1) <==>
      || InjectedBefore(t, refPublic, kind, plain, i)
      || (kind == Doh && i >= 1 && plain[i].OK() && AnyBad(t, refPublic, plain[i].addrs))
  {
  }

  /** The plain-answer loop of Analyze. */
  method ScanPlain(t: Tables, refPublic: bool, kind: Kind, r: Lookups)
      returns (blockIPs: seq<Addr>, bogons: seq<Addr>, injected: bool)
    ensures blockIPs == Union([], BlocksIn(t, AddrsOf(r.Plain())))
    ensures bogons == Union([], BogonsIn(t, refPublic, AddrsOf(r.Plain())))
    ensures injected == Injected(t, r, refPublic, kind)
  {
    blockIPs, bogons, injected := [], [], false;
    var plain := r.Plain();
    for i := 0 to |plain|
      invariant blockIPs == BlocksAfter(t, plain, i)
      invariant bogons == BogonsAfter(t, refPublic, plain, i)
      invariant injected == InjectedBefore(t, refPublic, kind, plain, i)
    {
      var ans := plain[i];
      InjectedStep(t, refPublic, kind, plain, i);
      if ans.OK() {
        var bad;
        blockIPs, bogons, bad := ScanAnswer(t, refPublic, ans.addrs, blockIPs, bogons);
        if bad && i > 0 && kind == Doh {
          injected := true;
        }
      }
    }
    assert plain[..|plain|] == plain;
    BlocksAfterAll(t, plain, |plain|);
    BogonsAfterAll(t, refPublic, plain, |plain|);
    InjectedByIndex(t, r, refPublic, kind);
  }

  lemma InjectedByIndex(t: Tables, r: Lookups, refPublic: bool, kind: Kind)
    ensures Injected(t, r, refPublic, kind) <==> InjectedBefore(t, refPublic, kind, r.Plain(), |r.Plain()|)
  {
    forall ans | ans in r.public ensures exists k :: 1 <= k < |r.Plain()| && r.Plain()[k] == ans {
      var i :| 0 <= i < |r.public| && r.public[i] == ans;
      assert r.Plain()[i + 1] == ans;
    }
    assert forall k :: 1 <= k < |r.Plain()| ==> r.Plain()[k] == r.public[k - 1];
  }

  method Analyze(t: Tables, r: Lookups) returns (a: Analysis)
    ensures a == AnalysisOf(t, r)
  {
    var reference, kind := FindReference(t, r);
    var allBogon := AllBogonOf(t, reference);
    var refPublic := |reference| > 0 && !allBogon;
    var blockIPs, bogons, injected := ScanPlain(t, refPublic, kind, r);
    var suspects: seq<Addr> := [];
    var meet := IntersectsOf(r.system.addrs, reference);
    if r.system.OK() && |reference| > 0 && !(blockIPs != [] || bogons != []) && !meet {
      suspects := r.system.addrs;
    }
    var systemFailure := NoFailure;
    if !r.system.OK() && r.system.resolver != "" && |reference| > 0 {
      systemFailure := r.system.FailureKind();
    }
    var unresolvable := |reference| == 0 && |blockIPs| == 0 && |bogons| == 0;
    var dohUnavailable := NoneAnswered(r.doh);
    var allPlainTimeout := AllTimedOut(r);
    return Analysis(reference, kind, blockIPs, bogons, suspects, injected, systemFailure,
                    unresolvable, dohUnavailable, allPlainTimeout, false);
  }

  /** The loop over the DoH answers. */
  method NoneAnswered(doh: seq<Answer>) returns (none: bool)
    ensures none == (doh != [] && forall ans :: ans in doh ==> !ans.Answered())
  {
    none := false;
    if |doh| > 0 {
      none := true;
      for i := 0 to |doh|
        invariant none == forall ans :: ans in doh[..i] ==> !ans.Answered()
      {
        if doh[i].Answered() {
          assert doh[i] in doh[..i + 1];
          none := false;
        }
      }
      assert doh[..|doh|] == doh;
    }
  }

  /** The last loop of Analyze. */
  method AllTimedOut(r: Lookups) returns (all: bool)
    ensures all == (r.public != []
      && forall ans :: ans in r.Plain() && ans.resolver != "" ==> ans.FailureKind() == FailTimeout)
  {
    all := false;
    var plain := r.Plain();
    if |r.public| > 0 {
      all := true;
      for i := 0 to |plain|
        invariant all == forall ans :: ans in plain[..i] && ans.resolver != "" ==> ans.FailureKind() == FailTimeout
      {
        if plain[i].resolver != "" && plain[i].FailureKind() != FailTimeout {
          assert plain[i] in plain[..i + 1];
          all := false;
        }
      }
      assert plain[..|plain|] == plain;
    }
  }
}
