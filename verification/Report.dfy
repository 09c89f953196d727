// The grouped suggestions and the one-line summary of a report (internal/report/text.go).
// What a remedy or a phrase of the catalog says is a parameter.
module Report {
  import opened Base
  import opened Model

  /** What the report says about one target. */
  datatype Finding = Finding(target: Target, verdict: Verdict)

  /** The remedy for a verdict on a kind of service. */
  type Remedies = (Verdict, string) -> string

  /** The phrase for a key with named arguments. */
  type Phrases = (string, map<string, string>) -> string

  function JoinStrings(parts: seq<string>, sep: string): string {
    if parts == [] then ""
    else if |parts| == 1 then parts[0]
    else parts[0] + sep + JoinStrings(parts[1..], sep)
  }

  function Decimal(n: nat): string {
    if n < 10 then ["0123456789"[n]] else Decimal(n / 10) + ["0123456789"[n % 10]]
  }

  // --------------------------------------------------------- suggestions

  /** A verdict and the text of its remedy. */
  datatype Key = Key(v: Verdict, text: string)

  function KeyOf(remedies: Remedies, f: Finding): Key {
    Key(f.verdict, remedies(f.verdict, f.target.kind))
  }

  /** The key under which a group is filed. */
  function Filed(k: Key): string {
    VerdictName(k.v) + "\0" + k.text
  }

  lemma NameHasNoNul(v: Verdict)
    ensures '\0' !in VerdictName(v)
  {
  }

  lemma NamesDiffer(v: Verdict, w: Verdict)
    requires VerdictName(v) == VerdictName(w)
    ensures v == w
  {
    assert VerdictName(v)[0] == VerdictName(w)[0];
  }

  /** The first NUL splits a string in one way only. */
  lemma SplitsOnce(a: string, s: string, b: string, t: string)
    requires a + "\0" + s == b + "\0" + t && '\0' !in a && '\0' !in b
    ensures a == b && s == t
  {
    var all := a + "\0" + s;
    assert all[|a|] == '\0' && all[..|a|] == a && all[|a| + 1..] == s;
    assert all[|b|] == '\0' && all[..|b|] == b && all[|b| + 1..] == t;
    assert forall j :: 0 <= j < |a| ==> all[j] == a[j] && a[j] in a;
    assert forall j :: 0 <= j < |b| ==> all[j] == b[j] && b[j] in b;
  }

  /** Different keys are never filed under the same string. */
  lemma FiledIsInjective(k: Key, l: Key)
    requires Filed(k) == Filed(l)
    ensures k == l
  {
    NameHasNoNul(k.v);
    NameHasNoNul(l.v);
    SplitsOnce(VerdictName(k.v), k.text, VerdictName(l.v), l.text);
    NamesDiffer(k.v, l.v);
  }

  /** The keys of the non-OK findings, each where it first occurs. */
  function Keys(remedies: Remedies, fs: seq<Finding>): seq<Key> {
    if fs == [] then []
    else
      var before, f := Keys(remedies, fs[..|fs| - 1]), fs[|fs| - 1];
      if f.verdict.OK? || KeyOf(remedies, f) in before then before else before + [KeyOf(remedies, f)]
  }

  /** The hosts of the non-OK findings under a key, in input order. */
  function HostsUnder(remedies: Remedies, fs: seq<Finding>, k: Key): seq<string> {
    if fs == [] then []
    else
      var before, f := HostsUnder(remedies, fs[..|fs| - 1], k), fs[|fs| - 1];
      if f.verdict.OK? || KeyOf(remedies, f) != k then before else before + [f.target.host]
  }

  datatype Suggestion = Suggestion(v: Verdict, hosts: seq<string>, text: string) {
    /** The line shown to the user. */
    function Line(): string {
      VerdictName(v) + " (" + JoinStrings(hosts, ", ") + "): " + text
    }
  }

  function SuggestionsOf(remedies: Remedies, fs: seq<Finding>): (r: seq<Suggestion>)
    ensures |r| == |Keys(remedies, fs)|
    ensures forall i :: 0 <= i < |r| ==>
      var k := Keys(remedies, fs)[i]; r[i] == Suggestion(k.v, HostsUnder(remedies, fs, k), k.text)
  {
    var keys := Keys(remedies, fs);
    seq(|keys|, i requires 0 <= i < |keys| => Suggestion(keys[i].v, HostsUnder(remedies, fs, keys[i]), keys[i].text))
  }

  class Group {
    const text: string
    const v: Verdict
    var hosts: seq<string>

    constructor (text: string, v: Verdict)
      ensures this.text == text && this.v == v && hosts == []
    {
      this.text, this.v, hosts := text, v, [];
    }
  }

  lemma {:induction false} KeysAreDistinct(remedies: Remedies, fs: seq<Finding>)
    ensures NoDup(Keys(remedies, fs))
  {
    if fs != [] {
      KeysAreDistinct(remedies, fs[..|fs| - 1]);
    }
  }

  /** A key without a finding has no hosts. */
  lemma {:induction false} NoKeyNoHosts(remedies: Remedies, fs: seq<Finding>, k: Key)
    requires k !in Keys(remedies, fs)
    ensures HostsUnder(remedies, fs, k) == []
  {
    if fs != [] {
      NoKeyNoHosts(remedies, fs[..|fs| - 1], k);
    }
  }

  /** The groups on the heap hold the hosts of `fs` under `keys`, and are filed under them. */
  ghost predicate Grouped(remedies: Remedies, keys: seq<Key>, fs: seq<Finding>, groups: seq<Group>,
                          byText: map<string, Group>)
    reads groups
  {
    && NoDup(groups) && |groups| == |keys|
    && (forall i :: 0 <= i < |groups| ==> Holds(groups[i], keys[i], HostsUnder(remedies, fs, keys[i])))
    && IsIndex(keys, groups, byText)
  }

  ghost predicate Holds(g: Group, k: Key, hosts: seq<string>)
    reads g
  {
    g.v == k.v && g.text == k.text && g.hosts == hosts
  }

  ghost predicate IsIndex(keys: seq<Key>, groups: seq<Group>, byText: map<string, Group>)
    requires |groups| == |keys|
  {
    && (forall i :: 0 <= i < |keys| ==> Filed(keys[i]) in byText && byText[Filed(keys[i])] == groups[i])
    && (forall s :: s in byText ==> exists i :: 0 <= i < |keys| && Filed(keys[i]) == s)
  }

  /** A key is filed exactly when it is among the keys. */
  lemma FiledIff(keys: seq<Key>, groups: seq<Group>, byText: map<string, Group>, k: Key)
    requires |groups| == |keys| && IsIndex(keys, groups, byText)
    ensures Filed(k) in byText <==> k in keys
  {
    if Filed(k) in byText {
      var i :| 0 <= i < |keys| && Filed(keys[i]) == Filed(k);
      FiledIsInjective(keys[i], k);
    }
  }

  lemma IndexGrows(keys: seq<Key>, groups: seq<Group>, byText: map<string, Group>, k: Key, g: Group)
    requires |groups| == |keys| && IsIndex(keys, groups, byText) && Filed(k) !in byText
    ensures IsIndex(keys + [k], groups + [g], byText[Filed(k) := g])
  {
    assert (keys + [k])[|keys|] == k;
    forall s | s in byText ensures exists i :: 0 <= i < |keys + [k]| && Filed((keys + [k])[i]) == s {
      var i :| 0 <= i < |keys| && Filed(keys[i]) == s;
      assert (keys + [k])[i] == keys[i];
    }
  }

  lemma GroupOpens(remedies: Remedies, fs: seq<Finding>, keys: seq<Key>, k: Key, groups: seq<Group>,
                   byText: map<string, Group>, g: Group)
    requires Grouped(remedies, keys, fs, groups, byText) && keys == Keys(remedies, fs) && k !in keys
    requires g !in groups && Holds(g, k, [])
    ensures Grouped(remedies, keys + [k], fs, groups + [g], byText[Filed(k) := g])
  {
    NoKeyNoHosts(remedies, fs, k);
    FiledIff(keys, groups, byText, k);
    IndexGrows(keys, groups, byText, k, g);
    assert (keys + [k])[|keys|] == k;
  }

  lemma KeysStep(remedies: Remedies, fs: seq<Finding>, f: Finding)
    ensures Keys(remedies, fs + [f]) == Keys(remedies, fs)
      + if f.verdict.OK? || KeyOf(remedies, f) in Keys(remedies, fs) then [] else [KeyOf(remedies, f)]
  {
    assert (fs + [f])[..|fs|] == fs;
  }

  /** The group a finding goes to, created and filed when its key is new. */
  method GroupFor(remedies: Remedies, ghost fs: seq<Finding>, f: Finding, groups: seq<Group>,
                  byText: map<string, Group>)
      returns (groups': seq<Group>, byText': map<string, Group>, g: Group)
    requires Grouped(remedies, Keys(remedies, fs), fs, groups, byText) && !f.verdict.OK?
    ensures Grouped(remedies, Keys(remedies, fs + [f]), fs, groups', byText')
    ensures var k := KeyOf(remedies, f); Filed(k) in byText' && g == byText'[Filed(k)]
    ensures g in groups' && groups <= groups' && forall x :: x in groups' ==> x in groups || fresh(x)
  {
    groups', byText' := groups, byText;
    ghost var keys, k := Keys(remedies, fs), KeyOf(remedies, f);
    KeysStep(remedies, fs, f);
    FiledIff(keys, groups, byText, k);
    var text := remedies(f.verdict, f.target.kind);
    var name := VerdictName(f.verdict) + "\0" + text;
    assert name == Filed(k);
    if name in byText {
      g := byText[name];
    } else {
      g := new Group(text, f.verdict);
      GroupOpens(remedies, fs, keys, k, groups, byText, g);
      byText', groups' := byText[name := g], groups + [g];
    }
  }

  lemma HostsStep(remedies: Remedies, fs: seq<Finding>, f: Finding, k: Key)
    ensures HostsUnder(remedies, fs + [f], k) ==
      HostsUnder(remedies, fs, k) + if f.verdict.OK? || KeyOf(remedies, f) != k then [] else [f.target.host]
  {
    assert (fs + [f])[..|fs|] == fs;
  }

  /** One finding under way: its host joins the hosts of its group, and no other. */
  method AddHost(remedies: Remedies, ghost keys: seq<Key>, ghost fs: seq<Finding>, f: Finding, groups: seq<Group>,
                 ghost byText: map<string, Group>, g: Group)
    requires Grouped(remedies, keys, fs, groups, byText) && NoDup(keys) && !f.verdict.OK?
    requires var k := KeyOf(remedies, f); k in keys && Filed(k) in byText && g == byText[Filed(k)]
    modifies g`hosts
    ensures Grouped(remedies, keys, fs + [f], groups, byText)
  {
    g.hosts := g.hosts + [f.target.host];
    forall i | 0 <= i < |groups| ensures Holds(groups[i], keys[i], HostsUnder(remedies, fs + [f], keys[i])) {
      assert old(Holds(groups[i], keys[i], HostsUnder(remedies, fs, keys[i])));
      HostsStep(remedies, fs, f, keys[i]);
    }
  }

  lemma PrefixStep(fs: seq<Finding>, n: nat)
    requires n < |fs|
    ensures fs[..n + 1] == fs[..n] + [fs[n]]
  {
  }

  lemma KeyIsListed(remedies: Remedies, fs: seq<Finding>, f: Finding)
    requires !f.verdict.OK?
    ensures KeyOf(remedies, f) in Keys(remedies, fs + [f])
  {
    KeysStep(remedies, fs, f);
  }

  lemma OkChangesNothing(remedies: Remedies, fs: seq<Finding>, f: Finding, groups: seq<Group>,
                         byText: map<string, Group>)
    requires f.verdict.OK? && Grouped(remedies, Keys(remedies, fs), fs, groups, byText)
    ensures Grouped(remedies, Keys(remedies, fs + [f]), fs + [f], groups, byText)
  {
    assert (fs + [f])[..|fs|] == fs;
    forall i | 0 <= i < |groups|
      ensures Holds(groups[i], Keys(remedies, fs)[i], HostsUnder(remedies, fs + [f], Keys(remedies, fs)[i]))
    {
      HostsStep(remedies, fs, f, Keys(remedies, fs)[i]);
    }
  }

  /** The grouping loop of Suggestions. */
  method GroupAll(remedies: Remedies, fs: seq<Finding>) returns (groups: seq<Group>, byText: map<string, Group>)
    ensures Grouped(remedies, Keys(remedies, fs), fs, groups, byText)
  {
    groups, byText := [], map[];
    for n := 0 to |fs|
      invariant Grouped(remedies, Keys(remedies, fs[..n]), fs[..n], groups, byText)
      invariant forall g :: g in groups ==> fresh(g)
    {
      var f := fs[n];
      PrefixStep(fs, n);
      if f.verdict.OK? {
        OkChangesNothing(remedies, fs[..n], f, groups, byText);
        continue;
      }
      var g;
      groups, byText, g := GroupFor(remedies, fs[..n], f, groups, byText);
      KeysAreDistinct(remedies, fs[..n + 1]);
      KeyIsListed(remedies, fs[..n], f);
      AddHost(remedies, Keys(remedies, fs[..n + 1]), fs[..n], f, groups, byText, g);
    }
    assert fs[..|fs|] == fs;
  }

  /** A group that holds a key's hosts is that key's suggestion. */
  lemma HeldSuggestion(remedies: Remedies, fs: seq<Finding>, groups: seq<Group>, byText: map<string, Group>, i: nat)
    requires Grouped(remedies, Keys(remedies, fs), fs, groups, byText) && i < |groups|
    ensures i < |SuggestionsOf(remedies, fs)|
    ensures SuggestionsOf(remedies, fs)[i] == Suggestion(groups[i].v, groups[i].hosts, groups[i].text)
  {
    var k := Keys(remedies, fs)[i];
    assert Holds(groups[i], k, HostsUnder(remedies, fs, k));
  }

  /** The output loop of Suggestions. */
  method Lines(groups: seq<Group>) returns (out: seq<string>)
    ensures |out| == |groups|
    ensures forall i :: 0 <= i < |out| ==>
      out[i] == Suggestion(groups[i].v, groups[i].hosts, groups[i].text).Line()
  {
    out := [];
    for i := 0 to |groups|
      invariant |out| == i
      invariant forall k :: 0 <= k < i ==> out[k] == Suggestion(groups[k].v, groups[k].hosts, groups[k].text).Line()
    {
      var g := groups[i];
      out := out + [Suggestion(g.v, g.hosts, g.text).Line()];
    }
  }

  method Suggestions(remedies: Remedies, fs: seq<Finding>) returns (out: seq<string>)
    ensures |out| == |SuggestionsOf(remedies, fs)|
    ensures forall i :: 0 <= i < |out| ==> out[i] == SuggestionsOf(remedies, fs)[i].Line()
  {
    var groups, byText := GroupAll(remedies, fs);
    out := Lines(groups);
    forall i | 0 <= i < |groups|
      ensures SuggestionsOf(remedies, fs)[i] == Suggestion(groups[i].v, groups[i].hosts, groups[i].text)
    {
      HeldSuggestion(remedies, fs, groups, byText, i);
    }
  }

  // ------------------------------------------------------------- summary

  /** The position of a verdict in the stable order. */
  function Rank(v: Verdict): (n: nat)
    ensures n < |ALL_VERDICTS| && ALL_VERDICTS[n] == v
  {
    match v
    case OK => 0
    case LocalNetworkDown => 1
    case DnsPoisoned => 2
    case DnsIntercepted => 3
    case IpBlocked => 4
    case ConnectionReset => 5
    case SniFiltered => 6
    case TlsIntercepted => 7
    case BlockPage => 8
    case ProviderGeoBlock => 9
    case Throttled => 10
    case UpstreamOutage => 11
    case Inconclusive => 12
  }

  lemma RankOf(i: nat)
    requires i < |ALL_VERDICTS|
    ensures Rank(ALL_VERDICTS[i]) == i
  {
  }

  function Count(fs: seq<Finding>, v: Verdict): nat {
    if fs == [] then 0 else Count(fs[..|fs| - 1], v) + if fs[|fs| - 1].verdict == v then 1 else 0
  }

  lemma CountStep(fs: seq<Finding>, f: Finding, v: Verdict)
    ensures Count(fs + [f], v) == Count(fs, v) + if f.verdict == v then 1 else 0
  {
    assert (fs + [f])[..|fs|] == fs;
  }

  /** A lookup in a map of counts, 0 when absent. */
  function At(counts: map<Verdict, nat>, v: Verdict): nat {
    if v in counts then counts[v] else 0
  }

  method CountVerdicts(fs: seq<Finding>) returns (counts: map<Verdict, nat>)
    ensures forall v :: At(counts, v) == Count(fs, v)
  {
    counts := map[];
    for n := 0 to |fs|
      invariant forall v :: At(counts, v) == Count(fs[..n], v)
    {
      var v := fs[n].verdict;
      PrefixStep(fs, n);
      forall w ensures Count(fs[..n + 1], w) == Count(fs[..n], w) + if fs[n].verdict == w then 1 else 0 {
        CountStep(fs[..n], fs[n], w);
      }
      counts := counts[v := At(counts, v) + 1];
    }
    assert fs[..|fs|] == fs;
  }

  /** The elements of `s` with count `c`, in order. */
  function WithCount(s: seq<Verdict>, counts: map<Verdict, nat>, c: nat): seq<Verdict> {
    if s == [] then [] else (if At(counts, s[0]) == c then [s[0]] else []) + WithCount(s[1..], counts, c)
  }

  predicate Descending(s: seq<Verdict>, counts: map<Verdict, nat>) {
    forall i, j :: 0 <= i < j < |s| ==> At(counts, s[i]) >= At(counts, s[j])
  }

  lemma {:induction false} WithCountConcat(a: seq<Verdict>, b: seq<Verdict>, counts: map<Verdict, nat>, c: nat)
    ensures WithCount(a + b, counts, c) == WithCount(a, counts, c) + WithCount(b, counts, c)
  {
    if a == [] {
      assert a + b == b;
    } else {
      WithCountConcat(a[1..], b, counts, c);
      assert (a + b)[0] == a[0] && (a + b)[1..] == a[1..] + b;
      ConcatAssoc(if At(counts, a[0]) == c then [a[0]] else [], WithCount(a[1..], counts, c), WithCount(b, counts, c));
    }
  }

  lemma {:induction false} NoneWithCount(s: seq<Verdict>, counts: map<Verdict, nat>, c: nat)
    requires forall v :: v in s ==> At(counts, v) != c
    ensures WithCount(s, counts, c) == []
  {
    if s != [] {
      NoneWithCount(s[1..], counts, c);
    }
  }

  /** Inserting behind everything that counts as much keeps the order of equals. */
  lemma InsertIsStable(a: seq<Verdict>, x: Verdict, b: seq<Verdict>, counts: map<Verdict, nat>, c: nat)
    requires forall v :: v in b ==> At(counts, v) < At(counts, x)
    ensures WithCount(a + [x] + b, counts, c) == WithCount(a + b + [x], counts, c)
  {
    WithCountConcat(a + [x], b, counts, c);
    WithCountConcat(a, [x], counts, c);
    WithCountConcat(a + b, [x], counts, c);
    WithCountConcat(a, b, counts, c);
    if c == At(counts, x) {
      NoneWithCount(b, counts, c);
    }
  }

  lemma InsertedInOrder(r: seq<Verdict>, k: nat, x: Verdict, counts: map<Verdict, nat>)
    requires k <= |r| && Descending(r, counts)
    requires k > 0 ==> At(counts, r[k - 1]) >= At(counts, x)
    requires forall v :: v in r[k..] ==> At(counts, v) < At(counts, x)
    ensures Descending(r[..k] + [x] + r[k..], counts)
  {
    var t := r[..k] + [x] + r[k..];
    forall i, j | 0 <= i < j < |t| ensures At(counts, t[i]) >= At(counts, t[j]) {
      assert i < k ==> t[i] == r[i] && At(counts, r[i]) >= At(counts, r[k - 1]);
      assert j > k ==> t[j] == r[j - 1] && r[j - 1] in r[k..];
    }
  }

  /** Moves `x` forward past everything that counts less. */
  method Insert(r: seq<Verdict>, x: Verdict, counts: map<Verdict, nat>) returns (t: seq<Verdict>)
    requires Descending(r, counts)
    ensures Descending(t, counts)
    ensures forall c :: WithCount(t, counts, c) == WithCount(r + [x], counts, c)
  {
    var k := |r|;
    while k > 0 && At(counts, r[k - 1]) < At(counts, x)
      invariant 0 <= k <= |r|
      invariant forall v :: v in r[k..] ==> At(counts, v) < At(counts, x)
    {
      k := k - 1;
    }
    InsertedInOrder(r, k, x, counts);
    t := r[..k] + [x] + r[k..];
    forall c ensures WithCount(t, counts, c) == WithCount(r + [x], counts, c) {
      InsertIsStable(r[..k], x, r[k..], counts, c);
      assert r[..k] + r[k..] == r;
    }
  }

  lemma WithCountStep(r: seq<Verdict>, s: seq<Verdict>, i: nat, counts: map<Verdict, nat>)
    requires i < |s| && forall c :: WithCount(r, counts, c) == WithCount(s[..i], counts, c)
    ensures forall c :: WithCount(r + [s[i]], counts, c) == WithCount(s[..i + 1], counts, c)
  {
    forall c ensures WithCount(r + [s[i]], counts, c) == WithCount(s[..i + 1], counts, c) {
      WithCountConcat(r, [s[i]], counts, c);
      WithCountConcat(s[..i], [s[i]], counts, c);
      assert s[..i + 1] == s[..i] + [s[i]];
    }
  }

  /** sort.SliceStable by descending count. */
  method StableSort(s: seq<Verdict>, counts: map<Verdict, nat>) returns (r: seq<Verdict>)
    ensures Descending(r, counts)
    ensures forall c :: WithCount(r, counts, c) == WithCount(s, counts, c)
  {
    r := [];
    for i := 0 to |s|
      invariant Descending(r, counts)
      invariant forall c :: WithCount(r, counts, c) == WithCount(s[..i], counts, c)
    {
      WithCountStep(r, s, i, counts);
      r := Insert(r, s[i], counts);
    }
    assert s[..|s|] == s;
  }

  /** One part per problem and one for OK, and the number of targets; nothing without targets. */
  datatype Line = NoTargets | Line(problems: seq<(Verdict, nat)>, ok: nat, total: nat)

  /** `v` is listed before `w`: it is more frequent, or as frequent and earlier in the stable order. */
  predicate Ahead(fs: seq<Finding>, v: Verdict, w: Verdict) {
    Count(fs, v) > Count(fs, w) || (Count(fs, v) == Count(fs, w) && Rank(v) < Rank(w))
  }

  /** The problems of a report, most frequent first. */
  ghost predicate IsOrderedProblems(fs: seq<Finding>, vs: seq<Verdict>) {
    && (forall v :: v in vs <==> !v.OK? && Count(fs, v) > 0)
    && forall i, j :: 0 <= i < j < |vs| ==> Ahead(fs, vs[i], vs[j])
  }

  ghost predicate IsSummary(fs: seq<Finding>, line: Line) {
    if fs == [] then line == NoTargets
    else
      && line.Line? && line.ok == Count(fs, OK) && line.total == |fs|
      && (forall i :: 0 <= i < |line.problems| ==> line.problems[i].1 == Count(fs, line.problems[i].0))
      && IsOrderedProblems(fs, seq(|line.problems|, i requires 0 <= i < |line.problems| => line.problems[i].0))
  }

  ghost predicate InRankOrder(s: seq<Verdict>) {
    forall i, j :: 0 <= i < j < |s| ==> Rank(s[i]) < Rank(s[j])
  }

  lemma {:induction false} WithCountMembers(s: seq<Verdict>, counts: map<Verdict, nat>, c: nat)
    ensures forall v :: v in WithCount(s, counts, c) <==> v in s && At(counts, v) == c
  {
    if s != [] {
      WithCountMembers(s[1..], counts, c);
      assert s == [s[0]] + s[1..];
    }
  }

  lemma {:induction false} WithCountInRankOrder(s: seq<Verdict>, counts: map<Verdict, nat>, c: nat)
    requires InRankOrder(s)
    ensures InRankOrder(WithCount(s, counts, c))
  {
    if s != [] {
      WithCountInRankOrder(s[1..], counts, c);
      WithCountMembers(s[1..], counts, c);
      var rest := WithCount(s[1..], counts, c);
      forall j | 0 <= j < |rest| ensures Rank(s[0]) < Rank(rest[j]) {
        assert rest[j] in s[1..];
      }
    }
  }

  /** Elements of equal count appear in their class in the order of the whole. */
  lemma EqualsKeepOrder(s: seq<Verdict>, counts: map<Verdict, nat>, i: nat, j: nat)
    requires i < j < |s| && At(counts, s[i]) == At(counts, s[j])
    requires InRankOrder(WithCount(s, counts, At(counts, s[i])))
    ensures Rank(s[i]) < Rank(s[j])
  {
    var c := At(counts, s[i]);
    assert s[..j] + s[j..] == s;
    WithCountConcat(s[..j], s[j..], counts, c);
    WithCountMembers(s[..j], counts, c);
    assert s[..j][i] in s[..j];
    var before, after := WithCount(s[..j], counts, c), WithCount(s[j..], counts, c);
    var p :| 0 <= p < |before| && before[p] == s[i];
    assert after[0] == s[j];
    assert (before + after)[p] == s[i] && (before + after)[|before|] == s[j];
  }

  /** A stable sort by count of a list in rank order breaks ties by rank. */
  lemma SortedProblems(fs: seq<Finding>, counts: map<Verdict, nat>, s: seq<Verdict>, r: seq<Verdict>)
    requires forall v :: At(counts, v) == Count(fs, v)
    requires InRankOrder(s) && Descending(r, counts)
    requires forall c :: WithCount(r, counts, c) == WithCount(s, counts, c)
    ensures forall v :: v in r <==> v in s
    ensures forall i, j :: 0 <= i < j < |r| ==> Ahead(fs, r[i], r[j])
  {
    forall v ensures v in r <==> v in s {
      WithCountMembers(r, counts, At(counts, v));
      WithCountMembers(s, counts, At(counts, v));
    }
    forall i, j | 0 <= i < j < |r| ensures Ahead(fs, r[i], r[j]) {
      if At(counts, r[i]) == At(counts, r[j]) {
        WithCountInRankOrder(s, counts, At(counts, r[i]));
        EqualsKeepOrder(r, counts, i, j);
      }
    }
  }

  /** The problems present, in the stable order. */
  method Problems(counts: map<Verdict, nat>) returns (problems: seq<Verdict>)
    ensures InRankOrder(problems)
    ensures forall v :: v in problems <==> !v.OK? && At(counts, v) > 0
  {
    problems := [];
    for i := 0 to |ALL_VERDICTS|
      invariant InRankOrder(problems)
      invariant forall v :: v in problems <==> Rank(v) < i && !v.OK? && At(counts, v) > 0
    {
      var v := ALL_VERDICTS[i];
      RankOf(i);
      assert forall w :: Rank(w) == i <==> w == v;
      if !v.OK? && At(counts, v) > 0 {
        assert forall j :: 0 <= j < |problems| ==> problems[j] in problems;
        problems := problems + [v];
      }
    }
  }

  /** One part of the summary. */
  function PartText(phrase: Phrases, part: (Verdict, nat), total: nat): string {
    phrase("summary." + VerdictName(part.0), map["n" := Decimal(part.1), "total" := Decimal(total)])
  }

  function ProblemTexts(phrase: Phrases, problems: seq<(Verdict, nat)>, total: nat): (r: seq<string>)
    ensures |r| == |problems|
    ensures forall i :: 0 <= i < |r| ==> r[i] == PartText(phrase, problems[i], total)
  {
    seq(|problems|, i requires 0 <= i < |problems| => PartText(phrase, problems[i], total))
  }

  function LineText(phrase: Phrases, line: Line): string {
    match line
    case NoTargets => phrase("summary.none", map[])
    case Line(problems, ok, total) =>
      JoinStrings(ProblemTexts(phrase, problems, total) + [PartText(phrase, (OK, ok), total)],
                  phrase("summary.sep", map[]))
  }

  method Summary(phrase: Phrases, fs: seq<Finding>) returns (text: string)
    ensures exists line :: IsSummary(fs, line) && text == LineText(phrase, line)
  {
    if |fs| == 0 {
      assert IsSummary(fs, NoTargets);
      return phrase("summary.none", map[]);
    }
    var counts := CountVerdicts(fs);
    var problems := Problems(counts);
    var sorted := StableSort(problems, counts);
    SortedProblems(fs, counts, problems, sorted);
    ghost var line := LineOf(fs, sorted);
    var parts := PartTexts(phrase, sorted, counts, |fs|);
    assert parts == ProblemTexts(phrase, line.problems, |fs|);
    parts := parts + [PartText(phrase, (OK, At(counts, OK)), |fs|)];
    text := JoinStrings(parts, phrase("summary.sep", map[]));
    assert IsSummary(fs, line) && text == LineText(phrase, line);
  }

  /** The parts of the problems, in their order. */
  method PartTexts(phrase: Phrases, problems: seq<Verdict>, counts: map<Verdict, nat>, total: nat)
      returns (parts: seq<string>)
    ensures |parts| == |problems|
    ensures forall i :: 0 <= i < |parts| ==> parts[i] == PartText(phrase, (problems[i], At(counts, problems[i])), total)
  {
    parts := [];
    for i := 0 to |problems|
      invariant |parts| == i
      invariant forall k :: 0 <= k < i ==> parts[k] == PartText(phrase, (problems[k], At(counts, problems[k])), total)
    {
      parts := parts + [PartText(phrase, (problems[i], At(counts, problems[i])), total)];
    }
  }

  /** The summary whose problems stand in the given order. */
  ghost function LineOf(fs: seq<Finding>, vs: seq<Verdict>): (line: Line)
    ensures line.Line? && |line.problems| == |vs|
    ensures forall i :: 0 <= i < |vs| ==> line.problems[i] == (vs[i], Count(fs, vs[i]))
    ensures fs != [] && IsOrderedProblems(fs, vs) ==> IsSummary(fs, line)
  {
    var line := Line(seq(|vs|, i requires 0 <= i < |vs| => (vs[i], Count(fs, vs[i]))), Count(fs, OK), |fs|);
    assert seq(|line.problems|, i requires 0 <= i < |line.problems| => line.problems[i].0) == vs;
    line
  }
}
