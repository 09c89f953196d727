// The report loses nothing and counts nothing twice: suggestions partition the failing
// targets, and the summary's numbers add up to all of them.
module ReportProofs {
  import opened Base
  import opened Model
  import opened Report

  // ------------------------------------------------------ the partition

  /** The first finding under a key. */
  ghost predicate FirstSeen(remedies: Remedies, fs: seq<Finding>, k: Key, p: nat) {
    && p < |fs| && Falls(remedies, fs[p], k)
    && forall q :: 0 <= q < p ==> !Falls(remedies, fs[q], k)
  }

  /** A failing target that belongs under a key. */
  predicate Falls(remedies: Remedies, f: Finding, k: Key) {
    !f.verdict.OK? && KeyOf(remedies, f) == k
  }

  lemma {:induction false} KeyIffFinding(remedies: Remedies, fs: seq<Finding>, k: Key)
    ensures k in Keys(remedies, fs) <==> exists p :: 0 <= p < |fs| && Falls(remedies, fs[p], k)
  {
    if fs != [] {
      var init := fs[..|fs| - 1];
      KeyIffFinding(remedies, init, k);
      assert forall p :: 0 <= p < |init| ==> init[p] == fs[p];
    }
  }

  /** Groups stand in the order in which their keys first occur. */
  lemma {:induction false} GroupsInFirstOccurrenceOrder(remedies: Remedies, fs: seq<Finding>, i: nat, j: nat, p: nat,
                                                        q: nat)
    requires i < j < |Keys(remedies, fs)|
    requires FirstSeen(remedies, fs, Keys(remedies, fs)[i], p) && FirstSeen(remedies, fs, Keys(remedies, fs)[j], q)
    ensures p < q
  {
    var n := |fs| - 1;
    var init, keys := fs[..n], Keys(remedies, fs);
    KeysAreDistinct(remedies, fs);
    KeyIffFinding(remedies, init, keys[i]);
    KeyIffFinding(remedies, init, keys[j]);
    assert keys[i] in Keys(remedies, init);
    if j < |Keys(remedies, init)| {
      assert keys[j] in Keys(remedies, init);
      GroupsInFirstOccurrenceOrder(remedies, init, i, j, p, q);
    }
  }

  /** The finding behind the n-th host of a group. */
  ghost predicate Source(remedies: Remedies, fs: seq<Finding>, k: Key, n: nat, p: nat) {
    p < |fs| && Falls(remedies, fs[p], k) && |HostsUnder(remedies, fs[..p], k)| == n
  }

  /** Every failing target is listed in the group of its own verdict and remedy, where its turn comes. */
  lemma {:induction false} EveryFailureIsListed(remedies: Remedies, fs: seq<Finding>, p: nat)
    requires p < |fs| && !fs[p].verdict.OK?
    ensures var k := KeyOf(remedies, fs[p]);
      var hosts, n := HostsUnder(remedies, fs, k), |HostsUnder(remedies, fs[..p], k)|;
      k in Keys(remedies, fs) && n < |hosts| && hosts[n] == fs[p].target.host
  {
    var init := fs[..|fs| - 1];
    KeyIffFinding(remedies, fs, KeyOf(remedies, fs[p]));
    if p < |init| {
      EveryFailureIsListed(remedies, init, p);
      assert init[..p] == fs[..p] && init[p] == fs[p];
    }
  }

  /** Every listed host comes from a target. */
  lemma {:induction false} EveryHostHasASource(remedies: Remedies, fs: seq<Finding>, k: Key, n: nat)
    requires n < |HostsUnder(remedies, fs, k)|
    ensures exists p: nat :: Source(remedies, fs, k, n, p)
  {
    var init := fs[..|fs| - 1];
    if n < |HostsUnder(remedies, init, k)| {
      EveryHostHasASource(remedies, init, k, n);
      var p: nat :| Source(remedies, init, k, n, p);
      assert init[..p] == fs[..p] && init[p] == fs[p];
      assert Source(remedies, fs, k, n, p);
    } else {
      assert Source(remedies, fs, k, n, |fs| - 1);
    }
  }

  lemma {:induction false} HostsGrow(remedies: Remedies, fs: seq<Finding>, k: Key, p: nat)
    requires p < |fs| && Falls(remedies, fs[p], k)
    ensures |HostsUnder(remedies, fs[..p], k)| < |HostsUnder(remedies, fs, k)|
  {
    var init := fs[..|fs| - 1];
    if p < |init| {
      HostsGrow(remedies, init, k, p);
      assert init[..p] == fs[..p] && init[p] == fs[p];
    }
  }

  /** Hosts of a group keep the input order, so a host's source is its only one. */
  lemma SourcesKeepOrder(remedies: Remedies, fs: seq<Finding>, k: Key, m: nat, n: nat, p: nat, q: nat)
    requires Source(remedies, fs, k, m, p) && Source(remedies, fs, k, n, q)
    ensures m < n <==> p < q
    ensures m == n <==> p == q
  {
    if p < q {
      assert fs[..q][..p] == fs[..p];
      HostsGrow(remedies, fs[..q], k, p);
    } else if q < p {
      assert fs[..p][..q] == fs[..q];
      HostsGrow(remedies, fs[..p], k, q);
    }
  }

  /** How many hosts are listed in the groups of a verdict. */
  function Listed(remedies: Remedies, fs: seq<Finding>, keys: seq<Key>, v: Verdict): nat {
    if keys == [] then 0
    else (if keys[0].v == v then |HostsUnder(remedies, fs, keys[0])| else 0) + Listed(remedies, fs, keys[1..], v)
  }

  lemma {:induction false} ListedStep(remedies: Remedies, fs: seq<Finding>, f: Finding, keys: seq<Key>, v: Verdict)
    requires NoDup(keys)
    ensures Listed(remedies, fs + [f], keys, v) == Listed(remedies, fs, keys, v)
      + if !f.verdict.OK? && f.verdict == v && KeyOf(remedies, f) in keys then 1 else 0
  {
    if keys != [] {
      HostsStep(remedies, fs, f, keys[0]);
      assert forall j :: 0 <= j < |keys[1..]| ==> keys[1..][j] == keys[j + 1] != keys[0];
      assert keys == [keys[0]] + keys[1..];
      ListedStep(remedies, fs, f, keys[1..], v);
    }
  }

  lemma {:induction false} ListedSnoc(remedies: Remedies, fs: seq<Finding>, keys: seq<Key>, k: Key, v: Verdict)
    ensures Listed(remedies, fs, keys + [k], v)
      == Listed(remedies, fs, keys, v) + if k.v == v then |HostsUnder(remedies, fs, k)| else 0
  {
    if keys == [] {
      assert keys + [k] == [k];
    } else {
      ListedSnoc(remedies, fs, keys[1..], k, v);
      assert (keys + [k])[1..] == keys[1..] + [k];
    }
  }

  /** The groups of a verdict list as many hosts as the summary counts targets with it. */
  lemma {:induction false} SuggestionsMatchCounts(remedies: Remedies, fs: seq<Finding>, v: Verdict)
    requires !v.OK?
    ensures Listed(remedies, fs, Keys(remedies, fs), v) == Count(fs, v)
  {
    if fs != [] {
      var init, f := fs[..|fs| - 1], fs[|fs| - 1];
      var k := KeyOf(remedies, f);
      assert init + [f] == fs;
      SuggestionsMatchCounts(remedies, init, v);
      KeysAreDistinct(remedies, init);
      ListedStep(remedies, init, f, Keys(remedies, init), v);
      if !f.verdict.OK? && k !in Keys(remedies, init) {
        NoKeyNoHosts(remedies, init, k);
        HostsStep(remedies, init, f, k);
        ListedSnoc(remedies, fs, Keys(remedies, init), k, v);
      }
    }
  }

  // --------------------------------------------------------- the summary

  function Sum(fs: seq<Finding>, vs: seq<Verdict>): nat {
    if vs == [] then 0 else Count(fs, vs[0]) + Sum(fs, vs[1..])
  }

  lemma {:induction false} SumStep(fs: seq<Finding>, f: Finding, vs: seq<Verdict>)
    requires NoDup(vs)
    ensures Sum(fs + [f], vs) == Sum(fs, vs) + if f.verdict in vs then 1 else 0
  {
    if vs != [] {
      CountStep(fs, f, vs[0]);
      assert forall j :: 0 <= j < |vs[1..]| ==> vs[1..][j] == vs[j + 1] != vs[0];
      assert vs == [vs[0]] + vs[1..];
      SumStep(fs, f, vs[1..]);
    }
  }

  lemma {:induction false} CountsOf(vs: seq<Verdict>)
    ensures Sum([], vs) == 0
  {
    if vs != [] {
      CountsOf(vs[1..]);
    }
  }

  /** Distinct verdicts that cover every finding count all of them. */
  lemma {:induction false} SumCoversAll(fs: seq<Finding>, vs: seq<Verdict>)
    requires NoDup(vs) && forall f :: f in fs ==> f.verdict in vs
    ensures Sum(fs, vs) == |fs|
  {
    if fs == [] {
      CountsOf(vs);
    } else {
      var init, f := fs[..|fs| - 1], fs[|fs| - 1];
      assert init + [f] == fs;
      SumCoversAll(init, vs);
      SumStep(init, f, vs);
    }
  }

  lemma {:induction false} CountPositive(fs: seq<Finding>, f: Finding)
    requires f in fs
    ensures Count(fs, f.verdict) > 0
  {
    if f != fs[|fs| - 1] {
      assert fs == fs[..|fs| - 1] + [fs[|fs| - 1]];
      CountPositive(fs[..|fs| - 1], f);
    }
  }

  function Total(problems: seq<(Verdict, nat)>): nat {
    if problems == [] then 0 else problems[0].1 + Total(problems[1..])
  }

  ghost function Names(problems: seq<(Verdict, nat)>): (vs: seq<Verdict>)
    ensures |vs| == |problems| && forall i :: 0 <= i < |vs| ==> vs[i] == problems[i].0
  {
    seq(|problems|, i requires 0 <= i < |problems| => problems[i].0)
  }

  lemma {:induction false} TotalIsSum(fs: seq<Finding>, problems: seq<(Verdict, nat)>)
    requires forall i :: 0 <= i < |problems| ==> problems[i].1 == Count(fs, problems[i].0)
    ensures Total(problems) == Sum(fs, Names(problems))
  {
    if problems != [] {
      TotalIsSum(fs, problems[1..]);
      assert Names(problems)[1..] == Names(problems[1..]);
    }
  }

  /** The numbers in the summary add up to the number of targets. */
  lemma SummaryAddsUp(fs: seq<Finding>, line: Line)
    requires IsSummary(fs, line) && line.Line?
    ensures line.ok + Total(line.problems) == line.total == |fs|
  {
    var vs := Names(line.problems);
    assert IsOrderedProblems(fs, vs);
    forall i, j | 0 <= i < j < |vs| ensures vs[i] != vs[j] {
      assert Ahead(fs, vs[i], vs[j]);
    }
    forall i | 0 <= i < |vs| ensures !vs[i].OK? {
      assert vs[i] in vs;
    }
    forall f | f in fs ensures f.verdict in [OK] + vs {
      CountPositive(fs, f);
    }
    SumCoversAll(fs, [OK] + vs);
    assert ([OK] + vs)[1..] == vs;
    TotalIsSum(fs, line.problems);
  }

  /** A list of verdicts in the summary's order is determined by its members. */
  lemma {:induction false} OrderIsDetermined(fs: seq<Finding>, a: seq<Verdict>, b: seq<Verdict>)
    requires forall i, j :: 0 <= i < j < |a| ==> Ahead(fs, a[i], a[j])
    requires forall i, j :: 0 <= i < j < |b| ==> Ahead(fs, b[i], b[j])
    requires SameElements(a, b)
    ensures a == b
  {
    SameEmptiness(a, b);
    if a != [] {
      assert a[0] in b && b[0] in a;
      assert a[0] == b[0];
      forall v ensures v in a[1..] <==> v in b[1..] {
        assert a == [a[0]] + a[1..] && b == [b[0]] + b[1..];
        assert forall j :: 0 < j < |a| ==> Ahead(fs, a[0], a[j]);
        assert forall j :: 0 < j < |b| ==> Ahead(fs, b[0], b[j]);
        assert v in a[1..] ==> v in b && v != a[0];
        assert v in b[1..] ==> v in a && v != b[0];
      }
      OrderIsDetermined(fs, a[1..], b[1..]);
    }
  }

  /** There is one summary of a report. */
  lemma SummaryIsDetermined(fs: seq<Finding>, a: Line, b: Line)
    requires IsSummary(fs, a) && IsSummary(fs, b)
    ensures a == b
  {
    if fs != [] {
      assert IsOrderedProblems(fs, Names(a.problems)) && IsOrderedProblems(fs, Names(b.problems));
      OrderIsDetermined(fs, Names(a.problems), Names(b.problems));
      forall i | 0 <= i < |a.problems| ensures a.problems[i] == b.problems[i] {
        assert Names(a.problems)[i] == Names(b.problems)[i];
      }
    }
  }
}
