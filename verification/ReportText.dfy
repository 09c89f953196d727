// The report's texts say what they should: numbers read back as the numbers counted, and
// every part of a joined text stands where the parts before it end.
module ReportText {
  import opened Base
  import opened Model
  import opened Report
  import ReportProofs

  // ------------------------------------------------------------ numbers

  ghost predicate IsDigits(s: string) {
    s != [] && forall i :: 0 <= i < |s| ==> '0' <= s[i] <= '9'
  }

  /** The number that digits denote, the last one counting ones. */
  ghost function Denoted(s: string): nat
    requires forall i :: 0 <= i < |s| ==> '0' <= s[i] <= '9'
  {
    if s == [] then 0 else 10 * Denoted(s[..|s| - 1]) + (s[|s| - 1] as int - '0' as int)
  }

  ghost predicate Reads(s: string, n: nat) {
    IsDigits(s) && Denoted(s) == n && (|s| > 1 ==> s[0] != '0')
  }

  lemma DigitRead(d: nat)
    requires d < 10
    ensures var c := "0123456789"[d]; '0' <= c <= '9' && c as int - '0' as int == d
  {
  }

  /** A number is written in digits that denote it, with no zero in front. */
  lemma {:induction false} DecimalReads(n: nat)
    ensures Reads(Decimal(n), n)
  {
    var s := Decimal(n);
    DigitRead(n % 10);
    if n < 10 {
      assert s[..0] == [];
    } else {
      DecimalReads(n / 10);
      assert s[..|s| - 1] == Decimal(n / 10);
    }
  }

  // -------------------------------------------------------- joined texts

  /** Where part `k` starts. */
  ghost function Start(parts: seq<string>, sep: string, k: nat): nat
    requires k <= |parts|
  {
    if k == 0 then 0 else Start(parts, sep, k - 1) + |parts[k - 1]| + |sep|
  }

  /** A piece of text stands at a place. */
  ghost predicate Stands(text: string, at: nat, piece: string) {
    at + |piece| <= |text| && text[at..at + |piece|] == piece
  }

  /** Part `k` stands in its place, and a separator behind it unless it is the last. */
  ghost predicate PartStands(text: string, parts: seq<string>, sep: string, k: nat)
    requires k < |parts|
  {
    && Stands(text, Start(parts, sep, k), parts[k])
    && (k + 1 < |parts| ==> Stands(text, Start(parts, sep, k) + |parts[k]|, sep))
  }

  /** The text is the parts with a separator between neighbours, and nothing else. */
  ghost predicate IsJoined(text: string, parts: seq<string>, sep: string) {
    && |text| == (if parts == [] then 0 else Start(parts, sep, |parts| - 1) + |parts[|parts| - 1]|)
    && forall k :: 0 <= k < |parts| ==> PartStands(text, parts, sep, k)
  }

  lemma {:induction false} StartShifts(parts: seq<string>, sep: string, k: nat)
    requires k < |parts|
    ensures Start(parts, sep, k + 1) == |parts[0]| + |sep| + Start(parts[1..], sep, k)
  {
    if k > 0 {
      StartShifts(parts, sep, k - 1);
    }
  }

  lemma StandsBehind(front: string, text: string, at: nat, piece: string)
    requires Stands(text, at, piece)
    ensures Stands(front + text, |front| + at, piece)
  {
    assert (front + text)[|front| + at..|front| + at + |piece|] == text[at..at + |piece|];
  }

  lemma FrontStands(a: string, sep: string, rest: string)
    ensures Stands(a + sep + rest, 0, a)
    ensures Stands(a + sep + rest, |a|, sep)
  {
    assert (a + sep + rest)[|a|..|a| + |sep|] == sep;
  }

  /** Behind a first part and its separator, the other parts stand where they should. */
  lemma PartShifts(parts: seq<string>, sep: string, front: string, rest: string, k: nat)
    requires 0 < k < |parts| && |front| == |parts[0]| + |sep| && PartStands(rest, parts[1..], sep, k - 1)
    ensures PartStands(front + rest, parts, sep, k)
  {
    var others := parts[1..];
    var at := Start(others, sep, k - 1);
    StartShifts(parts, sep, k - 1);
    assert others[k - 1] == parts[k];
    StandsBehind(front, rest, at, parts[k]);
    if k + 1 < |parts| {
      StandsBehind(front, rest, at + |parts[k]|, sep);
    }
  }

  lemma {:induction false} JoinIsJoined(parts: seq<string>, sep: string)
    ensures IsJoined(JoinStrings(parts, sep), parts, sep)
  {
    if |parts| > 1 {
      var rest, text := JoinStrings(parts[1..], sep), JoinStrings(parts, sep);
      JoinIsJoined(parts[1..], sep);
      FrontStands(parts[0], sep, rest);
      StartShifts(parts, sep, |parts| - 2);
      forall k | 0 <= k < |parts| ensures PartStands(text, parts, sep, k) {
        if k > 0 {
          PartShifts(parts, sep, parts[0] + sep, rest, k);
        }
      }
    }
  }

  // -------------------------------------------------------- suggestions

  /** A line names its verdict first, then its hosts, each in its place, then its remedy. */
  ghost predicate LineSays(line: string, v: Verdict, hosts: seq<string>, remedy: string) {
    exists middle ::
      && line == VerdictName(v) + " (" + middle + "): " + remedy
      && IsJoined(middle, hosts, ", ")
  }

  lemma SuggestionSays(s: Suggestion)
    ensures LineSays(s.Line(), s.v, s.hosts, s.text)
  {
    var middle := JoinStrings(s.hosts, ", ");
    JoinIsJoined(s.hosts, ", ");
    assert s.Line() == VerdictName(s.v) + " (" + middle + "): " + s.text;
  }

  /** Every failing target is shown: the suggestion of its verdict and remedy names both, and its host. */
  lemma FailureIsShown(remedies: Remedies, fs: seq<Finding>, p: nat)
    requires p < |fs| && !fs[p].verdict.OK?
    ensures exists s ::
      && s in SuggestionsOf(remedies, fs)
      && fs[p].target.host in s.hosts
      && LineSays(s.Line(), fs[p].verdict, s.hosts, remedies(fs[p].verdict, fs[p].target.kind))
  {
    var k := KeyOf(remedies, fs[p]);
    ReportProofs.EveryFailureIsListed(remedies, fs, p);
    var i :| 0 <= i < |Keys(remedies, fs)| && Keys(remedies, fs)[i] == k;
    var s := SuggestionsOf(remedies, fs)[i];
    assert s == Suggestion(k.v, HostsUnder(remedies, fs, k), k.text);
    SuggestionSays(s);
  }

  // ------------------------------------------------------------- summary

  /** What a part of the summary is rendered from: the verdict's phrase, its count and the total. */
  ghost predicate PartSays(phrase: Phrases, part: string, v: Verdict, n: nat, total: nat) {
    exists count, all :: Reads(count, n) && Reads(all, total)
      && part == phrase("summary." + VerdictName(v), map["n" := count, "total" := all])
  }

  lemma PartIsSaid(phrase: Phrases, part: (Verdict, nat), total: nat)
    ensures PartSays(phrase, PartText(phrase, part, total), part.0, part.1, total)
  {
    DecimalReads(part.1);
    DecimalReads(total);
  }

  /** One part per problem, in the summary's order, and the OK part last. */
  ghost predicate ArePartsOf(phrase: Phrases, fs: seq<Finding>, problems: seq<(Verdict, nat)>, parts: seq<string>) {
    && |parts| == |problems| + 1
    && (forall i :: 0 <= i < |problems| ==> PartSays(phrase, parts[i], problems[i].0, Count(fs, problems[i].0), |fs|))
    && PartSays(phrase, parts[|problems|], OK, Count(fs, OK), |fs|)
  }

  ghost function PartsOf(phrase: Phrases, fs: seq<Finding>, line: Line): seq<string>
    requires line.Line?
  {
    ProblemTexts(phrase, line.problems, |fs|) + [PartText(phrase, (OK, Count(fs, OK)), |fs|)]
  }

  /** The summary's text is its parts, joined by the catalog's separator. */
  lemma {:induction false} SummarySays(phrase: Phrases, fs: seq<Finding>, line: Line)
    requires IsSummary(fs, line) && line.Line?
    ensures ArePartsOf(phrase, fs, line.problems, PartsOf(phrase, fs, line))
    ensures IsJoined(LineText(phrase, line), PartsOf(phrase, fs, line), phrase("summary.sep", map[]))
  {
    JoinIsJoined(PartsOf(phrase, fs, line), phrase("summary.sep", map[]));
    PartIsSaid(phrase, (OK, Count(fs, OK)), |fs|);
    forall i | 0 <= i < |line.problems|
      ensures PartSays(phrase, PartText(phrase, line.problems[i], |fs|), line.problems[i].0,
                       Count(fs, line.problems[i].0), |fs|)
    {
      PartIsSaid(phrase, line.problems[i], |fs|);
    }
  }

  ghost function With(fs: seq<Finding>, v: Verdict): set<nat> {
    set p: nat | p < |fs| && fs[p].verdict == v
  }

  lemma WithStep(fs: seq<Finding>, f: Finding, v: Verdict)
    ensures With(fs + [f], v) == With(fs, v) + if f.verdict == v then {|fs|} else {}
    ensures |fs| !in With(fs, v)
  {
    assert forall p :: 0 <= p < |fs| ==> (fs + [f])[p] == fs[p];
  }

  /** How often a verdict is counted: once for each finding that has it. */
  lemma {:induction false} CountIsCardinality(fs: seq<Finding>, v: Verdict)
    ensures Count(fs, v) == |With(fs, v)|
  {
    if fs != [] {
      var init, f := fs[..|fs| - 1], fs[|fs| - 1];
      CountIsCardinality(init, v);
      CountStep(init, f, v);
      WithStep(init, f, v);
      assert init + [f] == fs;
    }
  }
}
