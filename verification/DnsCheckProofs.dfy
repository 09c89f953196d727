// What an analysis of the resolvers' answers means, for every set of answers.
module DnsCheckProofs {
  import opened Base
  import opened DnsCheck

  /** Some resolver of the list returned addresses. */
  ghost predicate SomeOK(answers: seq<Answer>) {
    exists ans :: ans in answers && ans.OK()
  }

  lemma AddrsOfEmptiness(answers: seq<Answer>)
    ensures AddrsOf(answers) != [] <==> SomeOK(answers)
  {
    AddrsOfMembers(answers);
    if AddrsOf(answers) != [] {
      assert AddrsOf(answers)[0] in AddrsOf(answers);
    }
    if ans :| ans in answers && ans.OK() {
      assert ans.addrs[0] in AddrsOf(answers);
    }
  }

  /** The reference is the first clean plain answer only when no DoH resolver gave addresses. */
  lemma ReferenceMembers(t: Tables, r: Lookups)
    ensures var (reference, kind) := ReferenceOf(t, r);
      && NoDup(reference)
      && (reference != [] <==> SomeOK(r.doh) || exists ans :: ans in r.Plain() && Clean(t, ans))
      && (SomeOK(r.doh) ==> kind == Doh && forall x :: x in reference <==> x in AddrsOf(r.doh))
      && (!SomeOK(r.doh) ==> forall x :: x in reference ==> !t.isBlock(x))
      && (!SomeOK(r.doh) && reference != [] ==> exists ans :: ans in r.Plain() && ans.kind == kind)
  {
    AddrsOfEmptiness(r.doh);
    var fallback := r.public + [r.system];
    assert forall ans :: ans in fallback <==> ans in r.Plain();
    var first := FirstClean(t, fallback);
    var source := if SomeOK(r.doh) then AddrsOf(r.doh) else if first.Some? then first.value.addrs else [];
    UnionMembers([], source);
    UnionEmptiness(source);
  }

  lemma BadListMembers(t: Tables, r: Lookups)
    ensures var a := AnalysisOf(t, r);
      var refPublic := RefPublic(t, a.reference);
      && (forall x :: x in a.blockIPs <==> x in AddrsOf(r.Plain()) && t.isBlock(x))
      && (forall x :: x in a.bogons <==> x in AddrsOf(r.Plain()) && !t.isBlock(x) && refPublic && t.isBogon(x))
      && NoDup(a.blockIPs) && NoDup(a.bogons)
  {
    var refPublic := RefPublic(t, AnalysisOf(t, r).reference);
    var plain := AddrsOf(r.Plain());
    BadMembers(t, refPublic, plain);
    UnionMembers([], BlocksIn(t, plain));
    UnionMembers([], BogonsIn(t, refPublic, plain));
  }

  /** A name is unresolvable exactly when no resolver of any kind returned an address. */
  lemma UnresolvableIff(t: Tables, r: Lookups)
    ensures AnalysisOf(t, r).unresolvable <==> !r.system.OK() && !SomeOK(r.public) && !SomeOK(r.doh)
  {
    var a := AnalysisOf(t, r);
    ReferenceMembers(t, r);
    BadListMembers(t, r);
    AddrsOfEmptiness(r.Plain());
    AddrsOfMembers(r.Plain());
    assert SomeOK(r.Plain()) <==> r.system.OK() || SomeOK(r.public) by {
      assert forall ans :: ans in r.Plain() <==> ans == r.system || ans in r.public;
    }
    if ans :| ans in r.Plain() && ans.OK() {
      if HasBad(t, ans.addrs) {
        var x :| x in ans.addrs && t.isBlock(x);
        assert x in a.blockIPs;
      } else {
        assert Clean(t, ans);
      }
    }
    if a.blockIPs != [] {
      assert a.blockIPs[0] in AddrsOf(r.Plain());
    }
    if a.bogons != [] {
      assert a.bogons[0] in AddrsOf(r.Plain());
    }
  }

  /** The lists are duplicate-free, bad addresses are counted once, and suspects are not proof. */
  lemma AnalysisShape(t: Tables, r: Lookups)
    ensures var a := AnalysisOf(t, r);
      && NoDup(a.reference) && NoDup(a.blockIPs) && NoDup(a.bogons)
      && !Intersects(a.blockIPs, a.bogons)
      && (a.suspects != [] ==>
            a.suspects == r.system.addrs && !a.Poisoned() && a.systemFailure == NoFailure
            && !Intersects(a.suspects, a.reference) && a.reference != [])
      && (a.systemFailure != NoFailure ==> a.reference != [] && !r.system.OK())
      && (a.unresolvable ==> a.reference == [] && !a.Poisoned() && a.suspects == [] && a.systemFailure == NoFailure)
      && (a.reference == [] && !a.unresolvable ==> a.Poisoned())
  {
    ReferenceMembers(t, r);
    BadListMembers(t, r);
  }

  lemma BadIsListed(t: Tables, r: Lookups, ans: Answer, x: Addr)
    requires ans in r.public && ans.OK() && x in ans.addrs
    requires Bad(t, RefPublic(t, AnalysisOf(t, r).reference), x)
    ensures AnalysisOf(t, r).Poisoned()
  {
    var a := AnalysisOf(t, r);
    BadListMembers(t, r);
    AddrsOfMembers(r.Plain());
    assert ans in r.Plain();
    assert x in a.blockIPs || x in a.bogons;
  }

  /** Injection is only claimed against a DoH reference, and it is a form of poisoning. */
  lemma InjectedMeansPoisoned(t: Tables, r: Lookups)
    requires AnalysisOf(t, r).injectedPublic
    ensures var a := AnalysisOf(t, r);
      && a.Poisoned() && a.referenceKind == Doh && a.reference != []
      && ((forall ans :: ans in r.Plain() ==> ans.kind != Doh) ==> SomeOK(r.doh))
  {
    var refPublic := RefPublic(t, AnalysisOf(t, r).reference);
    var ans :| ans in r.public && ans.OK() && AnyBad(t, refPublic, ans.addrs);
    var x :| x in ans.addrs && Bad(t, refPublic, x);
    BadIsListed(t, r, ans, x);
    ReferenceMembers(t, r);
    ReferenceHasKind(t, r);
  }

  lemma ReferenceHasKind(t: Tables, r: Lookups)
    ensures ReferenceOf(t, r).1 == Doh ==>
      ReferenceOf(t, r).0 != [] && (SomeOK(r.doh) || exists ans :: ans in r.Plain() && ans.kind == Doh)
  {
    ReferenceMembers(t, r);
    AddrsOfEmptiness(r.doh);
    var first := FirstClean(t, r.public + [r.system]);
    if first.Some? {
      assert first.value in r.Plain();
    }
  }

  // ------------------------------------------------- order of resolvers

  /** Equal up to the order of the address lists. */
  ghost predicate SameAnalysis(a: Analysis, b: Analysis) {
    && SameElements(a.reference, b.reference) && a.referenceKind == b.referenceKind
    && SameElements(a.blockIPs, b.blockIPs) && SameElements(a.bogons, b.bogons)
    && a.suspects == b.suspects
    && a.injectedPublic == b.injectedPublic && a.systemFailure == b.systemFailure
    && a.unresolvable == b.unresolvable && a.dohUnavailable == b.dohUnavailable
    && a.allPlainTimeout == b.allPlainTimeout && a.dropped == b.dropped
  }

  /** Everything but the reference follows from the reference's addresses and the answers' contents. */
  lemma SameFromReference(t: Tables, r: Lookups, s: Lookups)
    requires r.system == s.system && SameElements(r.public, s.public) && SameElements(r.doh, s.doh)
    requires SameElements(AnalysisOf(t, r).reference, AnalysisOf(t, s).reference)
    requires AnalysisOf(t, r).referenceKind == AnalysisOf(t, s).referenceKind
    ensures SameAnalysis(AnalysisOf(t, r), AnalysisOf(t, s))
  {
    var a, b := AnalysisOf(t, r), AnalysisOf(t, s);
    assert SameElements(r.Plain(), s.Plain()) by {
      assert forall ans :: ans in r.Plain() <==> ans == r.system || ans in r.public;
      assert forall ans :: ans in s.Plain() <==> ans == s.system || ans in s.public;
    }
    AddrsOfMembers(r.Plain());
    AddrsOfMembers(s.Plain());
    assert SameElements(AddrsOf(r.Plain()), AddrsOf(s.Plain()));
    assert RefPublic(t, a.reference) == RefPublic(t, b.reference);
    BadListMembers(t, r);
    BadListMembers(t, s);
    SameEmptiness(a.reference, b.reference);
    SameEmptiness(a.blockIPs, b.blockIPs);
    SameEmptiness(a.bogons, b.bogons);
    SameEmptiness(r.doh, s.doh);
    SameEmptiness(r.public, s.public);
    assert Intersects(r.system.addrs, a.reference) == Intersects(s.system.addrs, b.reference);
  }

  /** The order (and repetition) of the DoH answers does not matter. */
  lemma DohOrderIrrelevant(t: Tables, r: Lookups, doh: seq<Answer>)
    requires SameElements(r.doh, doh)
    ensures SameAnalysis(AnalysisOf(t, r), AnalysisOf(t, r.(doh := doh)))
  {
    var s := r.(doh := doh);
    assert s.Plain() == r.Plain();
    assert SomeOK(r.doh) == SomeOK(doh);
    AddrsOfEmptiness(r.doh);
    AddrsOfEmptiness(doh);
    AddrsOfMembers(r.doh);
    AddrsOfMembers(doh);
    ReferenceMembers(t, r);
    ReferenceMembers(t, s);
    SameFromReference(t, r, s);
  }

  /** With a DoH reference, the order of the public resolvers does not matter either. */
  lemma PublicOrderIrrelevant(t: Tables, r: Lookups, public: seq<Answer>)
    requires SameElements(r.public, public) && SomeOK(r.doh)
    ensures SameAnalysis(AnalysisOf(t, r), AnalysisOf(t, r.(public := public)))
  {
    AddrsOfEmptiness(r.doh);
    SameFromReference(t, r, r.(public := public));
  }

  /** Any two clean public answers come over the same kind of path with the same addresses. */
  ghost predicate CleanAgree(t: Tables, r: Lookups) {
    forall a, b :: a in r.public && b in r.public && Clean(t, a) && Clean(t, b) ==>
      a.kind == b.kind && SameElements(a.addrs, b.addrs)
  }

  /** No list of the same public answers, however ordered and repeated, changes the analysis. */
  ghost predicate OrderFree(t: Tables, r: Lookups) {
    forall p :: SameElements(r.public, p) ==> SameAnalysis(AnalysisOf(t, r), AnalysisOf(t, r.(public := p)))
  }

  /** No permutation of the public answers changes the analysis. */
  ghost predicate PermutationFree(t: Tables, r: Lookups) {
    forall p :: multiset(p) == multiset(r.public) ==>
      SameAnalysis(AnalysisOf(t, r), AnalysisOf(t, r.(public := p)))
  }

  /** A permutation that starts with a given answer. */
  lemma InFront(answers: seq<Answer>, a: Answer) returns (p: seq<Answer>)
    requires a in answers
    ensures p != [] && p[0] == a && multiset(p) == multiset(answers)
  {
    var i :| 0 <= i < |answers| && answers[i] == a;
    p := [a] + answers[..i] + answers[i + 1..];
    assert answers == answers[..i] + [a] + answers[i + 1..];
  }

  /** Without a DoH address, a clean answer in front becomes the reference. */
  lemma FrontIsReference(t: Tables, r: Lookups)
    requires !SomeOK(r.doh) && r.public != [] && Clean(t, r.public[0])
    ensures AnalysisOf(t, r).referenceKind == r.public[0].kind
    ensures SameElements(AnalysisOf(t, r).reference, r.public[0].addrs)
  {
    AddrsOfEmptiness(r.doh);
    var fallback := r.public + [r.system];
    assert fallback[0] == r.public[0];
    UnionMembers([], r.public[0].addrs);
  }

  lemma {:induction false} FirstCleanOf(t: Tables, public: seq<Answer>, system: Answer)
    ensures var first := FirstClean(t, public + [system]);
      if exists a :: a in public && Clean(t, a) then first.Some? && first.value in public && Clean(t, first.value)
      else first == FirstClean(t, [system])
  {
    if public == [] {
      assert public + [system] == [system];
    } else {
      assert (public + [system])[1..] == public[1..] + [system];
      FirstCleanOf(t, public[1..], system);
      assert public == [public[0]] + public[1..];
    }
  }

  /** Agreeing clean answers yield one reference, whichever comes first. */
  lemma AgreementFixesReference(t: Tables, r: Lookups, p: seq<Answer>)
    requires !SomeOK(r.doh) && CleanAgree(t, r) && SameElements(r.public, p)
    ensures var a, b := AnalysisOf(t, r), AnalysisOf(t, r.(public := p));
      SameElements(a.reference, b.reference) && a.referenceKind == b.referenceKind
  {
    AddrsOfEmptiness(r.doh);
    FirstCleanOf(t, r.public, r.system);
    FirstCleanOf(t, p, r.system);
    var a, b := FirstClean(t, r.public + [r.system]), FirstClean(t, p + [r.system]);
    UnionMembers([], if a.Some? then a.value.addrs else []);
    UnionMembers([], if b.Some? then b.value.addrs else []);
  }

  lemma AgreementMakesOrderFree(t: Tables, r: Lookups)
    requires SomeOK(r.doh) || CleanAgree(t, r)
    ensures OrderFree(t, r)
  {
    forall p | SameElements(r.public, p) ensures SameAnalysis(AnalysisOf(t, r), AnalysisOf(t, r.(public := p))) {
      if SomeOK(r.doh) {
        PublicOrderIrrelevant(t, r, p);
      } else {
        AgreementFixesReference(t, r, p);
        SameFromReference(t, r, r.(public := p));
      }
    }
  }

  lemma PermutationFreeAgrees(t: Tables, r: Lookups, a: Answer, b: Answer)
    requires PermutationFree(t, r) && !SomeOK(r.doh)
    requires a in r.public && b in r.public && Clean(t, a) && Clean(t, b)
    ensures a.kind == b.kind && SameElements(a.addrs, b.addrs)
  {
    var p := InFront(r.public, a);
    var q := InFront(r.public, b);
    FrontIsReference(t, r.(public := p));
    FrontIsReference(t, r.(public := q));
    assert SameAnalysis(AnalysisOf(t, r), AnalysisOf(t, r.(public := p)));
    assert SameAnalysis(AnalysisOf(t, r), AnalysisOf(t, r.(public := q)));
  }

  /** The order of the public resolvers is irrelevant exactly when some DoH resolver gave addresses or
      all clean public answers agree; repeating answers makes no difference to that. */
  lemma PublicOrderIff(t: Tables, r: Lookups)
    ensures PermutationFree(t, r) <==> SomeOK(r.doh) || CleanAgree(t, r)
    ensures OrderFree(t, r) <==> SomeOK(r.doh) || CleanAgree(t, r)
  {
    if SomeOK(r.doh) || CleanAgree(t, r) {
      AgreementMakesOrderFree(t, r);
    }
    if OrderFree(t, r) {
      forall p | multiset(p) == multiset(r.public)
        ensures SameAnalysis(AnalysisOf(t, r), AnalysisOf(t, r.(public := p)))
      {
        SamePermuted(r.public, p);
      }
    }
    if PermutationFree(t, r) && !SomeOK(r.doh) {
      forall a, b | a in r.public && b in r.public && Clean(t, a) && Clean(t, b)
        ensures a.kind == b.kind && SameElements(a.addrs, b.addrs)
      {
        PermutationFreeAgrees(t, r, a, b);
      }
    }
  }

  lemma SamePermuted(a: seq<Answer>, b: seq<Answer>)
    requires multiset(a) == multiset(b)
    ensures SameElements(a, b)
  {
    forall x ensures x in a <==> x in b {
      assert x in a <==> x in multiset(a);
      assert x in b <==> x in multiset(b);
    }
  }

  /** Without a DoH reference it does: the first clean public answer is believed. */
  lemma PublicOrderMatters(x: Addr, y: Addr)
    requires x != y
    ensures var t := Tables(_ => false, _ => false);
      var first, second := Answer("a", Udp, [x], None), Answer("b", Udp, [y], None);
      var r := Lookups(NO_ANSWER, [first, second], []);
      SameElements(r.public, [second, first])
      && !SameAnalysis(AnalysisOf(t, r), AnalysisOf(t, r.(public := [second, first])))
  {
    var t := Tables(_ => false, _ => false);
    var first, second := Answer("a", Udp, [x], None), Answer("b", Udp, [y], None);
    var r := Lookups(NO_ANSWER, [first, second], []);
    assert Clean(t, first) && Clean(t, second);
    assert AnalysisOf(t, r).reference == Union([], [x]) == [x];
    assert AnalysisOf(t, r.(public := [second, first])).reference == Union([], [y]) == [y];
    assert x in [x] && x !in [y];
  }
}
