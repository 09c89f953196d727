// When exactly each field of an analysis is set, in terms of the resolvers' answers alone.
module AnalysisExact {
  import opened Base
  import opened DnsCheck
  import DnsCheckProofs
  import NetErrors
  import opened Firsts

  /** A resolver returned addresses, `x` among them. */
  ghost predicate Gave(ans: Answer, x: Addr) {
    ans.err == None && x in ans.addrs
  }

  ghost predicate GaveAny(ans: Answer) {
    exists x :: Gave(ans, x)
  }

  ghost predicate DohGave(r: Lookups) {
    exists ans :: ans in r.doh && GaveAny(ans)
  }

  /** A plain answer without block-page addresses. */
  ghost predicate Spotless(t: Tables, ans: Answer) {
    GaveAny(ans) && forall x :: Gave(ans, x) ==> !t.isBlock(x)
  }

  /** The plain answers in the order they are trusted: public resolvers, then the system's. */
  ghost function Trusted(r: Lookups): seq<Answer> {
    r.public + [r.system]
  }

  /** Answer `k` stands in for the missing DoH answers: the first one without block-page addresses. */
  ghost predicate StandsIn(t: Tables, r: Lookups, k: nat) {
    && !DohGave(r) && k < |Trusted(r)| && Spotless(t, Trusted(r)[k])
    && forall j :: 0 <= j < k ==> !Spotless(t, Trusted(r)[j])
  }

  /** An address believed to be right. */
  ghost predicate IsReference(t: Tables, r: Lookups, x: Addr) {
    || (exists ans :: ans in r.doh && Gave(ans, x))
    || (exists k: nat :: StandsIn(t, r, k) && Gave(Trusted(r)[k], x))
  }

  ghost predicate HasReference(t: Tables, r: Lookups) {
    DohGave(r) || exists ans :: (ans == r.system || ans in r.public) && Spotless(t, ans)
  }

  ghost predicate PublicReference(t: Tables, r: Lookups) {
    exists x :: IsReference(t, r, x) && !t.isBogon(x)
  }

  /** A plain resolver gave this address. */
  ghost predicate PlainGave(r: Lookups, x: Addr) {
    Gave(r.system, x) || exists ans :: ans in r.public && Gave(ans, x)
  }

  lemma OkIsGaveAny(ans: Answer)
    ensures ans.OK() <==> GaveAny(ans)
  {
    if ans.OK() {
      assert Gave(ans, ans.addrs[0]);
    }
  }

  lemma CleanIsSpotless(t: Tables, ans: Answer)
    ensures Clean(t, ans) <==> Spotless(t, ans)
  {
    OkIsGaveAny(ans);
    if Clean(t, ans) {
      forall x | Gave(ans, x) ensures !t.isBlock(x) {
        assert x in ans.addrs;
      }
    } else if ans.OK() {
      var x :| x in ans.addrs && t.isBlock(x);
      assert Gave(ans, x);
    }
  }

  lemma DohGaveIff(r: Lookups)
    ensures DohGave(r) <==> DnsCheckProofs.SomeOK(r.doh)
    ensures AddrsOf(r.doh) != [] <==> DohGave(r)
    ensures forall x :: x in AddrsOf(r.doh) <==> exists ans :: ans in r.doh && Gave(ans, x)
  {
    forall ans: Answer ensures ans.OK() <==> GaveAny(ans) {
      OkIsGaveAny(ans);
    }
    DnsCheckProofs.AddrsOfEmptiness(r.doh);
    AddrsOfMembers(r.doh);
    forall ans, x | ans in r.doh && Gave(ans, x) ensures ans.OK() {
      assert GaveAny(ans);
    }
  }

  lemma {:induction false} FirstCleanAt(t: Tables, answers: seq<Answer>) returns (k: nat)
    requires FirstClean(t, answers).Some?
    ensures k < |answers| && answers[k] == FirstClean(t, answers).value && Spotless(t, answers[k])
    ensures forall j :: 0 <= j < k ==> !Spotless(t, answers[j])
  {
    CleanIsSpotless(t, answers[0]);
    if Clean(t, answers[0]) {
      k := 0;
    } else {
      var j := FirstCleanAt(t, answers[1..]);
      k := j + 1;
    }
  }

  /** The stand-in is the answer the reference is taken from. */
  lemma StandInIff(t: Tables, r: Lookups)
    requires !DohGave(r)
    ensures forall k: nat :: StandsIn(t, r, k) ==> FirstClean(t, Trusted(r)) == Some(Trusted(r)[k])
    ensures FirstClean(t, Trusted(r)).Some? <==> exists k: nat :: StandsIn(t, r, k)
    ensures FirstClean(t, Trusted(r)).Some? <==> HasReference(t, r)
  {
    var answers := Trusted(r);
    forall ans: Answer ensures Clean(t, ans) <==> Spotless(t, ans) {
      CleanIsSpotless(t, ans);
    }
    forall k: nat | StandsIn(t, r, k) ensures FirstClean(t, answers) == Some(answers[k]) {
      assert answers[k] in answers;
      var j := FirstCleanAt(t, answers);
    }
    if FirstClean(t, answers).Some? {
      var k := FirstCleanAt(t, answers);
      assert StandsIn(t, r, k);
    }
    assert forall ans :: ans in answers <==> ans == r.system || ans in r.public;
  }

  /** The reference, exactly: what DoH gave, or what the first spotless plain answer gave. */
  lemma ReferenceIff(t: Tables, r: Lookups)
    ensures var a := AnalysisOf(t, r);
      && (forall x :: x in a.reference <==> IsReference(t, r, x))
      && (a.reference != [] <==> HasReference(t, r))
      && (a.referenceKind == Doh <==> DohGave(r) || exists k: nat :: StandsIn(t, r, k) && Trusted(r)[k].kind == Doh)
      && (forall k: nat :: StandsIn(t, r, k) ==> a.referenceKind == Trusted(r)[k].kind)
  {
    DohGaveIff(r);
    var source := if DohGave(r) then AddrsOf(r.doh)
      else if FirstClean(t, Trusted(r)).Some? then FirstClean(t, Trusted(r)).value.addrs else [];
    UnionMembers([], source);
    UnionEmptiness(source);
    if !DohGave(r) {
      StandInIff(t, r);
      forall ans, x | ans in r.doh ensures !Gave(ans, x) {
        if Gave(ans, x) {
          assert GaveAny(ans);
        }
      }
    }
  }

  lemma PublicReferenceIff(t: Tables, r: Lookups)
    ensures RefPublic(t, AnalysisOf(t, r).reference) <==> PublicReference(t, r)
  {
    ReferenceIff(t, r);
  }

  /** The two lists of bad addresses. */
  lemma BadListsIff(t: Tables, r: Lookups)
    ensures forall x :: x in AnalysisOf(t, r).blockIPs <==> PlainGave(r, x) && t.isBlock(x)
    ensures forall x :: x in AnalysisOf(t, r).bogons <==>
      PlainGave(r, x) && !t.isBlock(x) && t.isBogon(x) && PublicReference(t, r)
  {
    DnsCheckProofs.BadListMembers(t, r);
    PublicReferenceIff(t, r);
    forall x ensures x in AddrsOf(r.Plain()) <==> PlainGave(r, x) {
      PlainGaveIff(r, x);
    }
  }

  lemma PlainGaveIff(r: Lookups, x: Addr)
    ensures x in AddrsOf(r.Plain()) <==> PlainGave(r, x)
  {
    AddrsOfMembers(r.Plain());
    assert forall ans :: ans in r.Plain() <==> ans == r.system || ans in r.public;
  }

  /** Some plain resolver gave a block-page address, or a bogon where the reference is public. */
  ghost predicate Lied(t: Tables, r: Lookups) {
    exists x :: PlainGave(r, x) && (t.isBlock(x) || (t.isBogon(x) && PublicReference(t, r)))
  }

  lemma PoisonedIff(t: Tables, r: Lookups)
    ensures AnalysisOf(t, r).Poisoned() <==> Lied(t, r)
  {
    BadListsIff(t, r);
    var a := AnalysisOf(t, r);
    if a.blockIPs != [] {
      assert a.blockIPs[0] in a.blockIPs;
    }
    if a.bogons != [] {
      assert a.bogons[0] in a.bogons;
    }
    if x :| PlainGave(r, x) && (t.isBlock(x) || (t.isBogon(x) && PublicReference(t, r))) {
      assert x in a.blockIPs || x in a.bogons;
    }
  }

  /** The system resolver is set, gave no address, and there is something to compare it with. */
  ghost predicate SystemFailed(t: Tables, r: Lookups) {
    r.system.resolver != "" && !GaveAny(r.system) && HasReference(t, r)
  }

  lemma SystemFailureIff(t: Tables, r: Lookups)
    ensures var f, err := AnalysisOf(t, r).systemFailure, r.system.err;
      && (f == FailNxDomain <==> SystemFailed(t, r) && err == Some(NxDomain))
      && (f == FailNoAnswer <==> SystemFailed(t, r) && err == Some(NoAnswer))
      && (f == FailTimeout <==> SystemFailed(t, r) && err == Some(Net(NetErrors.Timeout)))
      && (f == FailRefused <==> SystemFailed(t, r) && err == Some(Net(NetErrors.Refused)))
      && (f == FailError <==> SystemFailed(t, r) && err.Some? && !err.value.NxDomain? && !err.value.NoAnswer?
                              && err != Some(Net(NetErrors.Timeout)) && err != Some(Net(NetErrors.Refused)))
      && (f == NoFailure <==> !SystemFailed(t, r) || err == None)
  {
    ReferenceIff(t, r);
    OkIsGaveAny(r.system);
  }

  /** Suspects: every address the system gave, when none is bad and none is a reference address. */
  lemma SuspectsIff(t: Tables, r: Lookups)
    ensures AnalysisOf(t, r).suspects ==
      if GaveAny(r.system) && HasReference(t, r) && !Lied(t, r)
         && !(exists x :: Gave(r.system, x) && IsReference(t, r, x))
      then r.system.addrs else []
  {
    ReferenceIff(t, r);
    PoisonedIff(t, r);
    OkIsGaveAny(r.system);
    var a := AnalysisOf(t, r);
    if GaveAny(r.system) {
      assert Intersects(r.system.addrs, a.reference) <==> exists x :: Gave(r.system, x) && IsReference(t, r, x);
    }
  }

  /** Injection: a public resolver gave a bad address while the reference came over DoH. */
  lemma InjectedIff(t: Tables, r: Lookups)
    ensures AnalysisOf(t, r).injectedPublic <==>
      && (DohGave(r) || exists k: nat :: StandsIn(t, r, k) && Trusted(r)[k].kind == Doh)
      && exists ans, x :: ans in r.public && Gave(ans, x) && (t.isBlock(x) || (t.isBogon(x) && PublicReference(t, r)))
  {
    ReferenceIff(t, r);
    PublicReferenceIff(t, r);
    var refPublic := RefPublic(t, AnalysisOf(t, r).reference);
    if ans :| ans in r.public && ans.OK() && AnyBad(t, refPublic, ans.addrs) {
      var x :| x in ans.addrs && Bad(t, refPublic, x);
      assert Gave(ans, x);
    }
    if ans, x :| ans in r.public && Gave(ans, x) && (t.isBlock(x) || (t.isBogon(x) && PublicReference(t, r))) {
      assert ans.OK() && Bad(t, refPublic, x);
    }
  }

  lemma UnresolvableIff(t: Tables, r: Lookups)
    ensures AnalysisOf(t, r).unresolvable <==>
      !GaveAny(r.system) && forall ans :: ans in r.public || ans in r.doh ==> !GaveAny(ans)
  {
    DnsCheckProofs.UnresolvableIff(t, r);
    forall ans: Answer ensures ans.OK() <==> GaveAny(ans) {
      OkIsGaveAny(ans);
    }
  }

  /** DoH is unavailable when resolvers are configured and each failed on the network. */
  lemma DohUnavailableIff(t: Tables, r: Lookups)
    ensures AnalysisOf(t, r).dohUnavailable <==>
      r.doh != [] && forall ans :: ans in r.doh ==> ans.err.Some? && ans.err.value.Net?
  {
  }

  lemma TimedOutIff(ans: Answer)
    ensures ans.FailureKind() == FailTimeout <==> ans.err == Some(Net(NetErrors.Timeout))
  {
  }

  /** All plain resolvers timed out: public ones exist, and every one that is set timed out. */
  lemma AllPlainTimeoutIff(t: Tables, r: Lookups)
    ensures AnalysisOf(t, r).allPlainTimeout <==>
      && r.public != []
      && (r.system.resolver != "" ==> r.system.err == Some(Net(NetErrors.Timeout)))
      && forall ans :: ans in r.public && ans.resolver != "" ==> ans.err == Some(Net(NetErrors.Timeout))
  {
    forall ans: Answer ensures ans.FailureKind() == FailTimeout <==> ans.err == Some(Net(NetErrors.Timeout)) {
      TimedOutIff(ans);
    }
    assert forall ans :: ans in r.Plain() <==> ans == r.system || ans in r.public;
  }

  // ------------------------------------------- the order of the reference

  function Same(): Addr -> Addr {
    (x: Addr) => x
  }

  function GivenLists(answers: seq<Answer>): (r: seq<seq<Addr>>)
    ensures |r| == |answers| && forall k :: 0 <= k < |r| ==> r[k] == Given(answers[k])
  {
    seq(|answers|, k requires 0 <= k < |answers| => Given(answers[k]))
  }

  lemma {:induction false} AddrsOfIsConcat(answers: seq<Answer>)
    ensures AddrsOf(answers) == Concat(GivenLists(answers))
  {
    if answers != [] {
      AddrsOfIsConcat(answers[1..]);
      ConcatCons(Given(answers[0]), GivenLists(answers[1..]));
      assert GivenLists(answers) == [Given(answers[0])] + GivenLists(answers[1..]);
    }
  }

  lemma KeyInSame(s: seq<Addr>, x: Addr)
    ensures KeyIn(Same(), s, x) <==> x in s
  {
    if x in s {
      var m :| 0 <= m < |s| && s[m] == x;
      assert Same()(s[m]) == x;
    }
  }

  lemma {:induction false} UnionAt(s: seq<Addr>) returns (at: seq<nat>)
    ensures IsFirsts(Same(), s, Union([], s), at)
  {
    if s == [] {
      at := [];
    } else {
      var init, x := s[..|s| - 1], s[|s| - 1];
      at := UnionAt(init);
      assert init + [x] == s;
      UnionConcat([], init, [x]);
      UnionMembers([], init);
      KeyInSame(init, x);
      at := FirstsSnoc(Same(), init, Union([], init), at, x);
    }
  }

  /** Address `p` of answer `k` was not given before. */
  ghost predicate FirstGiven(answers: seq<Answer>, k: nat, p: nat) {
    && k < |answers| && answers[k].err == None && p < |answers[k].addrs|
    && (forall q :: 0 <= q < p ==> answers[k].addrs[q] != answers[k].addrs[p])
    && (forall j :: 0 <= j < k ==> !Gave(answers[j], answers[k].addrs[p]))
  }

  /** The answers the reference is taken from. */
  ghost predicate IsSource(t: Tables, r: Lookups, answers: seq<Answer>) {
    (DohGave(r) && answers == r.doh) || exists k: nat :: StandsIn(t, r, k) && answers == [Trusted(r)[k]]
  }

  lemma SourceIs(t: Tables, r: Lookups, answers: seq<Answer>)
    requires IsSource(t, r, answers)
    ensures AnalysisOf(t, r).reference == Union([], AddrsOf(answers))
  {
    DohGaveIff(r);
    if !DohGave(r) {
      StandInIff(t, r);
      var k: nat :| StandsIn(t, r, k) && answers == [Trusted(r)[k]];
      OkIsGaveAny(answers[0]);
      assert AddrsOf(answers) == answers[0].addrs + AddrsOf(answers[1..]) == answers[0].addrs;
    }
  }

  /** A first given address has a new position. */
  lemma FirstGivenIsNew(answers: seq<Answer>, k: nat, p: nat) returns (m: nat)
    requires FirstGiven(answers, k, p)
    ensures p < |GivenLists(answers)[k]| && m == Offset(GivenLists(answers), k) + p
    ensures m < |AddrsOf(answers)| && AddrsOf(answers)[m] == answers[k].addrs[p] && IsNew(Same(), AddrsOf(answers), m)
  {
    var lists, x := GivenLists(answers), answers[k].addrs[p];
    AddrsOfIsConcat(answers);
    m := Offset(lists, k) + p;
    ConcatAt(lists, k, p);
    forall j | 0 <= j < k ensures !KeyIn(Same(), lists[j], x) {
      KeyInSame(lists[j], x);
    }
    NewAtIff(Same(), lists, k, p);
  }

  lemma UnionInOrder(s: seq<Addr>, m: nat, m': nat, i: nat, i': nat)
    requires m < |s| && m' < |s| && IsNew(Same(), s, m) && IsNew(Same(), s, m')
    requires var u := Union([], s); i < |u| && i' < |u| && u[i] == s[m] && u[i'] == s[m']
    ensures i < i' <==> m < m'
  {
    var at := UnionAt(s);
    NewIsUnique(Same(), s, m, at[i]);
    NewIsUnique(Same(), s, m', at[i']);
  }

  /** Reference addresses stand in the order in which the answers first gave them. */
  lemma ReferenceInOrder(t: Tables, r: Lookups, answers: seq<Answer>, k: nat, p: nat, k': nat, p': nat, i: nat, i': nat)
    requires IsSource(t, r, answers) && FirstGiven(answers, k, p) && FirstGiven(answers, k', p')
    requires var ref := AnalysisOf(t, r).reference;
      i < |ref| && i' < |ref| && ref[i] == answers[k].addrs[p] && ref[i'] == answers[k'].addrs[p']
    ensures i < i' <==> k < k' || (k == k' && p < p')
  {
    SourceIs(t, r, answers);
    var m := FirstGivenIsNew(answers, k, p);
    var m' := FirstGivenIsNew(answers, k', p');
    ConcatOrder(GivenLists(answers), k, p, k', p');
    UnionInOrder(AddrsOf(answers), m, m', i, i');
  }

  lemma NewAtIsFirstGiven(answers: seq<Answer>, k: nat, p: nat)
    requires k < |answers| && p < |GivenLists(answers)[k]| && IsNewAt(Same(), GivenLists(answers), k, p)
    ensures FirstGiven(answers, k, p) && GivenLists(answers)[k][p] == answers[k].addrs[p]
  {
    var lists := GivenLists(answers);
    var x := lists[k][p];
    forall j | 0 <= j < k ensures !Gave(answers[j], x) {
      KeyInSame(lists[j], x);
      assert Same()(x) == x;
    }
    forall q | 0 <= q < p ensures lists[k][q] != x {
      assert Same()(lists[k][q]) != Same()(x);
    }
  }

  lemma ConcatFrom(answers: seq<Answer>, m: nat) returns (k: nat, p: nat)
    requires m < |AddrsOf(answers)| && IsNew(Same(), AddrsOf(answers), m)
    ensures FirstGiven(answers, k, p) && answers[k].addrs[p] == AddrsOf(answers)[m]
  {
    var lists := GivenLists(answers);
    AddrsOfIsConcat(answers);
    k, p := Locate(lists, m);
    ConcatAt(lists, k, p);
    NewAtIff(Same(), lists, k, p);
    NewAtIsFirstGiven(answers, k, p);
  }

  /** Every reference address was first given somewhere. */
  lemma ReferenceFrom(t: Tables, r: Lookups, answers: seq<Answer>, i: nat) returns (k: nat, p: nat)
    requires IsSource(t, r, answers) && i < |AnalysisOf(t, r).reference|
    ensures FirstGiven(answers, k, p) && answers[k].addrs[p] == AnalysisOf(t, r).reference[i]
  {
    SourceIs(t, r, answers);
    var at := UnionAt(AddrsOf(answers));
    k, p := ConcatFrom(answers, at[i]);
  }

  // ------------------------------------------- the order of the bad lists

  /** The elements of `s` that have a property, in order. */
  ghost function Kept(p: Addr -> bool, s: seq<Addr>): seq<Addr> {
    if s == [] then []
    else
      var before, x := Kept(p, s[..|s| - 1]), s[|s| - 1];
      if p(x) then before + [x] else before
  }

  lemma {:induction false} KeptMembers(p: Addr -> bool, s: seq<Addr>)
    ensures forall x :: x in Kept(p, s) <==> x in s && p(x)
  {
    if s != [] {
      KeptMembers(p, s[..|s| - 1]);
      assert s == s[..|s| - 1] + [s[|s| - 1]];
    }
  }

  lemma {:induction false} BlocksAreKept(t: Tables, s: seq<Addr>)
    ensures BlocksIn(t, s) == Kept(t.isBlock, s)
  {
    if s != [] {
      var init, x := s[..|s| - 1], s[|s| - 1];
      BlocksAreKept(t, init);
      BlocksInConcat(t, init, [x]);
      assert s == init + [x];
    }
  }

  ghost function IsStray(t: Tables, refPublic: bool): Addr -> bool {
    x => !t.isBlock(x) && refPublic && t.isBogon(x)
  }

  lemma {:induction false} BogonsAreKept(t: Tables, refPublic: bool, s: seq<Addr>)
    ensures BogonsIn(t, refPublic, s) == Kept(IsStray(t, refPublic), s)
  {
    if s != [] {
      var init, x := s[..|s| - 1], s[|s| - 1];
      BogonsAreKept(t, refPublic, init);
      BogonsInConcat(t, refPublic, init, [x]);
      assert s == init + [x];
    }
  }

  /** One more element joins the kept ones, once. */
  lemma KeptStep(p: Addr -> bool, init: seq<Addr>, x: Addr)
    ensures var before := Union([], Kept(p, init));
      && Union([], Kept(p, init + [x])) == (if p(x) && x !in before then before + [x] else before)
      && forall y :: y in before <==> y in init && p(y)
  {
    KeptMembers(p, init);
    UnionMembers([], Kept(p, init));
    assert (init + [x])[..|init|] == init;
    if p(x) {
      UnionConcat([], Kept(p, init), [x]);
    }
  }

  /** Kept elements stand in the order in which they first occur. */
  lemma {:induction false} KeptInOrder(p: Addr -> bool, s: seq<Addr>, m: nat, m': nat, i: nat, i': nat)
    requires m < m' < |s| && IsNew(Same(), s, m) && IsNew(Same(), s, m')
    requires var u := Union([], Kept(p, s)); i < |u| && i' < |u| && u[i] == s[m] && u[i'] == s[m']
    ensures i < i'
  {
    var init, x := s[..|s| - 1], s[|s| - 1];
    var before := Union([], Kept(p, init));
    assert s == init + [x];
    KeptStep(p, init, x);
    forall k | k == m || k == m' ensures p(s[k]) {
      KeptMembers(p, s);
      UnionMembers([], Kept(p, s));
    }
    assert init[m] in before;
    if m' < |init| {
      assert init[m'] in before;
      KeptInOrder(p, init, m, m', i, i');
    } else {
      assert Same()(s[m]) != Same()(s[m']);
    }
  }

  /** The plain answers in the order they are read. */
  ghost function Read(r: Lookups): seq<Answer> {
    [r.system] + r.public
  }

  /** Bad addresses stand in the order in which the system resolver and then the public ones first gave them. */
  lemma BadListsInOrder(t: Tables, r: Lookups, bad: seq<Addr>, k: nat, p: nat, k': nat, p': nat, i: nat, i': nat)
    requires bad == AnalysisOf(t, r).blockIPs || bad == AnalysisOf(t, r).bogons
    requires FirstGiven(Read(r), k, p) && FirstGiven(Read(r), k', p') && (k < k' || (k == k' && p < p'))
    requires i < |bad| && i' < |bad| && bad[i] == Read(r)[k].addrs[p] && bad[i'] == Read(r)[k'].addrs[p']
    ensures i < i'
  {
    var s := AddrsOf(Read(r));
    var refPublic := RefPublic(t, AnalysisOf(t, r).reference);
    var m := FirstGivenIsNew(Read(r), k, p);
    var m' := FirstGivenIsNew(Read(r), k', p');
    ConcatOrder(GivenLists(Read(r)), k, p, k', p');
    BlocksAreKept(t, s);
    BogonsAreKept(t, refPublic, s);
    if bad == Union([], Kept(t.isBlock, s)) {
      KeptInOrder(t.isBlock, s, m, m', i, i');
    } else {
      KeptInOrder(IsStray(t, refPublic), s, m, m', i, i');
    }
  }
}
