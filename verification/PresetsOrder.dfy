// In which order a resolved preset lists its targets, and which one stands for a host
// that is defined more than once: by includes first, in their order, then by own targets.
module PresetsOrder {
  import opened Base
  import opened Model
  import opened Presets
  import PresetsProofs
  import opened Firsts

  function HostKey(fold: string -> string): Target -> string {
    (t: Target) => fold(t.host)
  }

  // --------------------------------------------- includes on their own

  /** A walk that succeeds does not depend on the presets above it. */
  lemma {:induction false} StackIrrelevant(c: Catalog, n: string, stack: seq<string>, above: seq<string>)
    requires Flatten(c, n, stack).Ok? && forall x :: x in above ==> x in stack
    ensures Flatten(c, n, above) == Flatten(c, n, stack)
    decreases Free(c, stack), 0
  {
    FreeShrinks(c, stack, n);
    StackIrrelevantAll(c, c[n].includes, stack + [n], above + [n]);
  }

  lemma {:induction false} StackIrrelevantAll(c: Catalog, names: seq<string>, stack: seq<string>, above: seq<string>)
    requires FlattenAll(c, names, stack).Ok? && forall x :: x in above ==> x in stack
    ensures FlattenAll(c, names, above) == FlattenAll(c, names, stack)
    decreases Free(c, stack), |names|
  {
    if names != [] {
      StackIrrelevant(c, names[0], stack, above);
      StackIrrelevantAll(c, names[1..], stack, above);
    }
  }

  /** The flattened includes of a preset that resolves, one list each. */
  ghost function Flats(c: Catalog, names: seq<string>): (r: seq<seq<Target>>)
    requires forall inc :: inc in names ==> Flatten(c, inc, []).Ok?
    ensures |r| == |names| && forall k :: 0 <= k < |r| ==> r[k] == Flatten(c, names[k], []).value
  {
    seq(|names|, k requires 0 <= k < |names| => Flatten(c, names[k], []).value)
  }

  lemma FlatsCons(c: Catalog, names: seq<string>)
    requires names != [] && forall inc :: inc in names ==> Flatten(c, inc, []).Ok?
    ensures Flats(c, names) == [Flatten(c, names[0], []).value] + Flats(c, names[1..])
  {
  }

  lemma FlattenAllStep(c: Catalog, names: seq<string>, stack: seq<string>)
    requires names != [] && FlattenAll(c, names, stack).Ok?
    ensures Flatten(c, names[0], stack).Ok? && FlattenAll(c, names[1..], stack).Ok?
    ensures FlattenAll(c, names, stack).value
      == Flatten(c, names[0], stack).value + FlattenAll(c, names[1..], stack).value
  {
  }

  lemma {:induction false} FlattenAllIsConcat(c: Catalog, names: seq<string>, n: string)
    requires FlattenAll(c, names, [n]).Ok?
    ensures forall inc :: inc in names ==> Flatten(c, inc, []).Ok?
    ensures FlattenAll(c, names, [n]).value == Concat(Flats(c, names))
    decreases |names|
  {
    if names != [] {
      FlattenAllStep(c, names, [n]);
      StackIrrelevant(c, names[0], [n], []);
      FlattenAllIsConcat(c, names[1..], n);
      assert names == [names[0]] + names[1..];
      ConcatCons(Flatten(c, names[0], []).value, Flats(c, names[1..]));
      FlatsCons(c, names);
    }
  }

  /** What resolves has known includes that resolve. */
  lemma IncludesResolve(c: Catalog, fold: string -> string, n: string)
    requires Resolved(c, fold, n).Ok?
    ensures n in c && FlattenAll(c, c[n].includes, [n]).Ok?
    ensures forall inc :: inc in c[n].includes ==> Flatten(c, inc, []).Ok? && Resolved(c, fold, inc).Ok?
    ensures Flatten(c, n, []).value == Concat(Flats(c, c[n].includes) + [c[n].targets])
  {
    assert [] + [n] == [n];
    FlattenAllIsConcat(c, c[n].includes, n);
    var flats := Flats(c, c[n].includes);
    assert (flats + [c[n].targets])[..|flats|] == flats;
  }

  // ----------------------------------------------------------- the parts

  /** What preset `n` is put together from: what its includes resolve to, in order, and its own targets last. */
  ghost function Part(c: Catalog, fold: string -> string, n: string, k: nat): seq<Target>
    requires n in c && k <= |c[n].includes|
    requires forall inc :: inc in c[n].includes ==> Resolved(c, fold, inc).Ok?
  {
    if k < |c[n].includes| then Resolved(c, fold, c[n].includes[k]).value else c[n].targets
  }

  /** The `p`-th target of part `k` is the first one with its host, over all parts in order. */
  ghost predicate Leads(c: Catalog, fold: string -> string, n: string, k: nat, p: nat)
    requires n in c && forall inc :: inc in c[n].includes ==> Resolved(c, fold, inc).Ok?
  {
    && k <= |c[n].includes| && p < |Part(c, fold, n, k)|
    && (forall q :: 0 <= q < p ==> fold(Part(c, fold, n, k)[q].host) != fold(Part(c, fold, n, k)[p].host))
    && (forall j :: 0 <= j < k ==> !Mentions(fold, Part(c, fold, n, j), fold(Part(c, fold, n, k)[p].host)))
  }

  ghost predicate Mentions(fold: string -> string, ts: seq<Target>, host: string) {
    exists t :: t in ts && fold(t.host) == host
  }

  lemma MentionsIsKeyIn(fold: string -> string, ts: seq<Target>, host: string)
    ensures Mentions(fold, ts, host) <==> KeyIn(HostKey(fold), ts, host)
  {
    if t :| t in ts && fold(t.host) == host {
      var m :| 0 <= m < |ts| && ts[m] == t;
      assert HostKey(fold)(ts[m]) == host;
    }
    if KeyIn(HostKey(fold), ts, host) {
      var m :| 0 <= m < |ts| && HostKey(fold)(ts[m]) == host;
      assert ts[m] in ts;
    }
  }

  lemma {:induction false} FirstOccurrencesAt(fold: string -> string, ts: seq<Target>) returns (at: seq<nat>)
    ensures IsFirsts(HostKey(fold), ts, PresetsProofs.FirstOccurrences(fold, ts), at)
  {
    if ts == [] {
      at := [];
    } else {
      var init, t := ts[..|ts| - 1], ts[|ts| - 1];
      at := FirstOccurrencesAt(fold, init);
      MentionsIsKeyIn(fold, init, fold(t.host));
      assert init + [t] == ts;
      at := FirstsSnoc(HostKey(fold), init, PresetsProofs.FirstOccurrences(fold, init), at, t);
    }
  }

  lemma ResolvedAt(c: Catalog, fold: string -> string, n: string) returns (at: seq<nat>)
    requires Resolved(c, fold, n).Ok?
    ensures Flatten(c, n, []).Ok?
    ensures IsFirsts(HostKey(fold), Flatten(c, n, []).value, Resolved(c, fold, n).value, at)
  {
    PresetsProofs.ResolvedIsFirstOccurrences(c, fold, n);
    at := FirstOccurrencesAt(fold, Flatten(c, n, []).value);
  }

  /** The lists behind the parts, before duplicates are removed. */
  ghost function Whole(c: Catalog, n: string): (parts: seq<seq<Target>>)
    requires n in c && forall inc :: inc in c[n].includes ==> Flatten(c, inc, []).Ok?
    ensures |parts| == |c[n].includes| + 1
    ensures forall k :: 0 <= k < |c[n].includes| ==> parts[k] == Flatten(c, c[n].includes[k], []).value
    ensures parts[|c[n].includes|] == c[n].targets
  {
    Flats(c, c[n].includes) + [c[n].targets]
  }

  /** Increasing positions of a part in the list behind it. */
  ghost predicate IsPlace(c: Catalog, fold: string -> string, n: string, k: nat, at: seq<nat>)
    requires n in c && k <= |c[n].includes|
    requires forall inc :: inc in c[n].includes ==> Flatten(c, inc, []).Ok? && Resolved(c, fold, inc).Ok?
  {
    var part, list := Part(c, fold, n, k), Whole(c, n)[k];
    && |at| == |part|
    && (forall p :: 0 <= p < |part| ==> at[p] < |list| && list[at[p]] == part[p])
    && (forall p, q :: 0 <= p < q < |part| ==> at[p] < at[q])
    && (forall m: nat :: m < |list| && IsNew(HostKey(fold), list, m) ==> m in at)
  }

  /** Positions in a part correspond, in order, to positions in the list behind it. */
  lemma PartAt(c: Catalog, fold: string -> string, n: string, k: nat) returns (at: seq<nat>)
    requires Resolved(c, fold, n).Ok? && n in c && k <= |c[n].includes|
    requires forall inc :: inc in c[n].includes ==> Flatten(c, inc, []).Ok? && Resolved(c, fold, inc).Ok?
    ensures IsPlace(c, fold, n, k, at)
    ensures forall host :: KeyIn(HostKey(fold), Whole(c, n)[k], host) <==> Mentions(fold, Part(c, fold, n, k), host)
  {
    var part, list := Part(c, fold, n, k), Whole(c, n)[k];
    if k < |c[n].includes| {
      at := ResolvedAt(c, fold, c[n].includes[k]);
      FirstsKeys(HostKey(fold), list, part, at);
    } else {
      at := seq(|part|, p requires 0 <= p < |part| => p);
      forall m: nat | m < |list| ensures m in at {
        assert at[m] == m;
      }
    }
    forall host ensures KeyIn(HostKey(fold), list, host) <==> Mentions(fold, part, host) {
      MentionsIsKeyIn(fold, part, host);
    }
  }

  /** A position whose host is new in its list is the position of a target of the part. */
  lemma PlaceOf(c: Catalog, fold: string -> string, n: string, k: nat, at: seq<nat>, m: nat) returns (p: nat)
    requires n in c && k <= |c[n].includes|
    requires forall inc :: inc in c[n].includes ==> Flatten(c, inc, []).Ok? && Resolved(c, fold, inc).Ok?
    requires IsPlace(c, fold, n, k, at) && m < |Whole(c, n)[k]| && IsNew(HostKey(fold), Whole(c, n)[k], m)
    ensures p < |at| && at[p] == m && Part(c, fold, n, k)[p] == Whole(c, n)[k][m]
  {
    p :| 0 <= p < |at| && at[p] == m;
  }

  lemma NewIsFirst(key: Target -> string, list: seq<Target>, part: seq<Target>, at: seq<nat>, p: nat)
    requires |at| == |part| && p < |at| && forall q :: 0 <= q < |at| ==> at[q] < |list| && list[at[q]] == part[q]
    requires forall q, r :: 0 <= q < r < |at| ==> at[q] < at[r]
    requires IsNew(key, list, at[p])
    ensures forall q :: 0 <= q < p ==> key(part[q]) != key(part[p])
  {
  }

  lemma FirstIsNew(key: Target -> string, list: seq<Target>, part: seq<Target>, at: seq<nat>, p: nat)
    requires |at| == |part| && p < |at| && forall q :: 0 <= q < |at| ==> at[q] < |list| && list[at[q]] == part[q]
    requires forall q, r :: 0 <= q < r < |at| ==> at[q] < at[r]
    requires forall m: nat :: m < |list| && IsNew(key, list, m) ==> m in at
    requires forall q :: 0 <= q < p ==> key(part[q]) != key(part[p])
    ensures IsNew(key, list, at[p])
  {
    var m := FirstWithKey(key, list, key(list[at[p]]), at[p]);
    var q :| 0 <= q < |at| && at[q] == m;
    assert key(part[q]) == key(part[p]);
    assert q <= p;
  }

  /** A target that leads stands at a position where its host is new in its list. */
  lemma LeadsInPart(c: Catalog, fold: string -> string, n: string, k: nat, p: nat, at: seq<nat>)
    requires n in c && k <= |c[n].includes|
    requires forall inc :: inc in c[n].includes ==> Flatten(c, inc, []).Ok? && Resolved(c, fold, inc).Ok?
    requires IsPlace(c, fold, n, k, at) && p < |at|
    ensures IsNew(HostKey(fold), Whole(c, n)[k], at[p]) <==>
      forall q :: 0 <= q < p ==> fold(Part(c, fold, n, k)[q].host) != fold(Part(c, fold, n, k)[p].host)
  {
    var key, part, list := HostKey(fold), Part(c, fold, n, k), Whole(c, n)[k];
    if IsNew(key, list, at[p]) {
      NewIsFirst(key, list, part, at, p);
      forall q | 0 <= q < p ensures fold(part[q].host) != fold(part[p].host) {
        assert key(part[q]) != key(part[p]);
      }
    } else if forall q :: 0 <= q < p ==> fold(part[q].host) != fold(part[p].host) {
      FirstIsNew(key, list, part, at, p);
    }
  }

  lemma EarlierParts(c: Catalog, fold: string -> string, n: string, k: nat, host: string)
    requires Resolved(c, fold, n).Ok? && n in c && k <= |c[n].includes|
    requires forall inc :: inc in c[n].includes ==> Flatten(c, inc, []).Ok? && Resolved(c, fold, inc).Ok?
    ensures (forall j :: 0 <= j < k ==> !KeyIn(HostKey(fold), Whole(c, n)[j], host))
      <==> forall j :: 0 <= j < k ==> !Mentions(fold, Part(c, fold, n, j), host)
  {
    forall j | 0 <= j < k
      ensures KeyIn(HostKey(fold), Whole(c, n)[j], host) <==> Mentions(fold, Part(c, fold, n, j), host)
    {
      var _ := PartAt(c, fold, n, j);
    }
  }

  lemma LeadsIffNewAt(c: Catalog, fold: string -> string, n: string, k: nat, p: nat, at: seq<nat>)
    requires Resolved(c, fold, n).Ok? && n in c && k <= |c[n].includes|
    requires forall inc :: inc in c[n].includes ==> Flatten(c, inc, []).Ok? && Resolved(c, fold, inc).Ok?
    requires IsPlace(c, fold, n, k, at) && p < |at|
    ensures IsNewAt(HostKey(fold), Whole(c, n), k, at[p]) <==> Leads(c, fold, n, k, p)
  {
    LeadsInPart(c, fold, n, k, p, at);
    EarlierParts(c, fold, n, k, fold(Part(c, fold, n, k)[p].host));
  }

  lemma PositionOf(key: Target -> string, parts: seq<seq<Target>>, k: nat, q: nat) returns (m: nat)
    requires k < |parts| && q < |parts[k]|
    ensures m == Offset(parts, k) + q && m < |Concat(parts)| && Concat(parts)[m] == parts[k][q]
    ensures IsNew(key, Concat(parts), m) <==> IsNewAt(key, parts, k, q)
  {
    m := Offset(parts, k) + q;
    ConcatAt(parts, k, q);
    NewAtIff(key, parts, k, q);
  }

  /** Where a leading target stands in the flattened preset. */
  lemma LeadsAt(c: Catalog, fold: string -> string, n: string, k: nat, p: nat, at: seq<nat>) returns (m: nat)
    requires Resolved(c, fold, n).Ok? && n in c && k <= |c[n].includes|
    requires forall inc :: inc in c[n].includes ==> Flatten(c, inc, []).Ok? && Resolved(c, fold, inc).Ok?
    requires IsPlace(c, fold, n, k, at) && p < |at|
    ensures m == Offset(Whole(c, n), k) + at[p]
    ensures m < |Concat(Whole(c, n))| && Concat(Whole(c, n))[m] == Part(c, fold, n, k)[p]
    ensures IsNew(HostKey(fold), Concat(Whole(c, n)), m) <==> Leads(c, fold, n, k, p)
  {
    var parts, q := Whole(c, n), at[p];
    LeadsIffNewAt(c, fold, n, k, p, at);
    m := PositionOf(HostKey(fold), parts, k, q);
  }

  // --------------------------------------------------------- the theorems

  /** Every target that leads is returned: an include's target stands for its host even where a later
      include or the preset itself defines that host again. */
  lemma LeadingIsReturned(c: Catalog, fold: string -> string, n: string, k: nat, p: nat) returns (i: nat)
    requires Resolved(c, fold, n).Ok?
    ensures n in c && forall inc :: inc in c[n].includes ==> Resolved(c, fold, inc).Ok?
    ensures Leads(c, fold, n, k, p) ==>
      i < |Resolved(c, fold, n).value| && Resolved(c, fold, n).value[i] == Part(c, fold, n, k)[p]
  {
    IncludesResolve(c, fold, n);
    i := 0;
    if Leads(c, fold, n, k, p) {
      var whole := ResolvedAt(c, fold, n);
      var at := PartAt(c, fold, n, k);
      var m := LeadsAt(c, fold, n, k, p, at);
      i := FirstsKeep(HostKey(fold), Concat(Whole(c, n)), Resolved(c, fold, n).value, whole, m);
    }
  }

  lemma PlacedLeads(c: Catalog, fold: string -> string, n: string, k: nat, q: nat) returns (p: nat)
    requires Resolved(c, fold, n).Ok? && n in c && k <= |c[n].includes|
    requires forall inc :: inc in c[n].includes ==> Flatten(c, inc, []).Ok? && Resolved(c, fold, inc).Ok?
    requires q < |Whole(c, n)[k]| && IsNewAt(HostKey(fold), Whole(c, n), k, q)
    ensures Leads(c, fold, n, k, p) && Part(c, fold, n, k)[p] == Whole(c, n)[k][q]
  {
    var at := PartAt(c, fold, n, k);
    p := PlaceOf(c, fold, n, k, at, q);
    LeadsIffNewAt(c, fold, n, k, p, at);
  }

  /** The leading target behind a new position of the flattened preset. */
  lemma NewLeads(c: Catalog, fold: string -> string, n: string, m: nat) returns (k: nat, p: nat)
    requires Resolved(c, fold, n).Ok? && n in c
    requires forall inc :: inc in c[n].includes ==> Flatten(c, inc, []).Ok? && Resolved(c, fold, inc).Ok?
    requires m < |Concat(Whole(c, n))| && IsNew(HostKey(fold), Concat(Whole(c, n)), m)
    ensures Leads(c, fold, n, k, p) && Concat(Whole(c, n))[m] == Part(c, fold, n, k)[p]
  {
    var parts := Whole(c, n);
    var q;
    k, q := Locate(parts, m);
    ConcatAt(parts, k, q);
    NewAtIff(HostKey(fold), parts, k, q);
    p := PlacedLeads(c, fold, n, k, q);
  }

  /** Nothing else is returned. */
  lemma ReturnedLeads(c: Catalog, fold: string -> string, n: string, i: nat) returns (k: nat, p: nat)
    requires Resolved(c, fold, n).Ok? && i < |Resolved(c, fold, n).value|
    ensures n in c && forall inc :: inc in c[n].includes ==> Resolved(c, fold, inc).Ok?
    ensures Leads(c, fold, n, k, p) && Resolved(c, fold, n).value[i] == Part(c, fold, n, k)[p]
  {
    IncludesResolve(c, fold, n);
    var whole := ResolvedAt(c, fold, n);
    k, p := NewLeads(c, fold, n, whole[i]);
  }

  /** The result index of a leading target ranks like its position in the flattened preset. */
  lemma RankOf(c: Catalog, fold: string -> string, n: string, whole: seq<nat>, k: nat, p: nat, at: seq<nat>, i: nat)
    requires Resolved(c, fold, n).Ok? && n in c && k <= |c[n].includes|
    requires forall inc :: inc in c[n].includes ==> Flatten(c, inc, []).Ok? && Resolved(c, fold, inc).Ok?
    requires IsFirsts(HostKey(fold), Concat(Whole(c, n)), Resolved(c, fold, n).value, whole)
    requires IsPlace(c, fold, n, k, at) && Leads(c, fold, n, k, p)
    requires i < |whole| && Resolved(c, fold, n).value[i] == Part(c, fold, n, k)[p]
    ensures p < |at| && whole[i] == Offset(Whole(c, n), k) + at[p]
  {
    var m := LeadsAt(c, fold, n, k, p, at);
    NewIsUnique(HostKey(fold), Concat(Whole(c, n)), m, whole[i]);
  }

  lemma RanksCompare(c: Catalog, n: string, whole: seq<nat>, k: nat, p: nat, at: seq<nat>, k': nat, p': nat,
                     at': seq<nat>, i: nat, i': nat)
    requires n in c && forall inc :: inc in c[n].includes ==> Flatten(c, inc, []).Ok?
    requires k <= |c[n].includes| && k' <= |c[n].includes| && p < |at| && p' < |at'|
    requires at[p] < |Whole(c, n)[k]| && at'[p'] < |Whole(c, n)[k']|
    requires k == k' ==> at == at' && forall p, q :: 0 <= p < q < |at| ==> at[p] < at[q]
    requires i < |whole| && i' < |whole| && forall i, j :: 0 <= i < j < |whole| ==> whole[i] < whole[j]
    requires whole[i] == Offset(Whole(c, n), k) + at[p] && whole[i'] == Offset(Whole(c, n), k') + at'[p']
    ensures i < i' <==> k < k' || (k == k' && p < p')
  {
    ConcatOrder(Whole(c, n), k, at[p], k', at'[p']);
  }

  /** Targets are returned part by part, includes in their order and own targets last, and in each
      part in its order. */
  lemma ReturnedInOrder(c: Catalog, fold: string -> string, n: string, k: nat, p: nat, k': nat, p': nat, i: nat,
                        i': nat)
    requires Resolved(c, fold, n).Ok? && i < |Resolved(c, fold, n).value| && i' < |Resolved(c, fold, n).value|
    ensures n in c && forall inc :: inc in c[n].includes ==> Resolved(c, fold, inc).Ok?
    ensures
      && Leads(c, fold, n, k, p) && Resolved(c, fold, n).value[i] == Part(c, fold, n, k)[p]
      && Leads(c, fold, n, k', p') && Resolved(c, fold, n).value[i'] == Part(c, fold, n, k')[p']
      ==> (i < i' <==> k < k' || (k == k' && p < p'))
  {
    IncludesResolve(c, fold, n);
    var r := Resolved(c, fold, n).value;
    if Leads(c, fold, n, k, p) && r[i] == Part(c, fold, n, k)[p]
      && Leads(c, fold, n, k', p') && r[i'] == Part(c, fold, n, k')[p'] {
      var whole := ResolvedAt(c, fold, n);
      var at := PartAt(c, fold, n, k);
      var at' := PartAt(c, fold, n, k');
      at' := if k == k' then at else at';
      RankOf(c, fold, n, whole, k, p, at, i);
      RankOf(c, fold, n, whole, k', p', at', i');
      RanksCompare(c, n, whole, k, p, at, k', p', at', i, i');
    }
  }

  // -------------------------------------------------------------- lookup

  /** The strings agree before `i`, where the first one ends early or has the smaller character. */
  ghost predicate SmallerAt(a: string, b: string, i: nat) {
    && i <= |a| && i <= |b| && a[..i] == b[..i]
    && if i == |a| || i == |b| then i == |a| < |b| else a[i] < b[i]
  }

  /** The order of names is by the first character in which they differ, and a prefix comes first. */
  lemma StrLessIff(a: string, b: string)
    ensures StrLess(a, b) <==> exists i: nat :: SmallerAt(a, b, i)
  {
    if StrLess(a, b) {
      var i := DiffersAt(a, b);
    }
    if i: nat :| SmallerAt(a, b, i) {
      LessAt(a, b, i);
    }
  }

  lemma {:induction false} DiffersAt(a: string, b: string) returns (i: nat)
    requires StrLess(a, b)
    ensures SmallerAt(a, b, i)
  {
    if a == [] || a[0] < b[0] {
      i := 0;
    } else {
      var j := DiffersAt(a[1..], b[1..]);
      i := j + 1;
      assert a[..i] == [a[0]] + a[1..][..j] && b[..i] == [b[0]] + b[1..][..j];
    }
  }

  lemma {:induction false} LessAt(a: string, b: string, i: nat)
    requires SmallerAt(a, b, i)
    ensures StrLess(a, b)
    decreases i
  {
    if i > 0 {
      assert a[..i][0] == b[..i][0];
      assert a[1..][..i - 1] == a[..i][1..] && b[1..][..i - 1] == b[..i][1..];
      LessAt(a[1..], b[1..], i - 1);
    }
  }

  /** The `m`-th target of the `k`-th preset is the first of all with its host. */
  ghost predicate IsFirstMatch(c: Catalog, fold: string -> string, names: seq<string>, key: string, k: nat, m: nat)
    requires forall n :: n in names ==> n in c
  {
    && k < |names| && m < |c[names[k]].targets| && fold(c[names[k]].targets[m].host) == key
    && (forall q :: 0 <= q < m ==> fold(c[names[k]].targets[q].host) != key)
    && (forall j, q :: 0 <= j < k && 0 <= q < |c[names[j]].targets| ==> fold(c[names[j]].targets[q].host) != key)
  }

  lemma {:induction false} FirstInAt(ts: seq<Target>, fold: string -> string, key: string) returns (m: nat)
    requires FirstIn(ts, fold, key).Some?
    ensures m < |ts| && ts[m] == FirstIn(ts, fold, key).value && fold(ts[m].host) == key
    ensures forall q :: 0 <= q < m ==> fold(ts[q].host) != key
  {
    if fold(ts[0].host) == key {
      m := 0;
    } else {
      var j := FirstInAt(ts[1..], fold, key);
      m := j + 1;
    }
  }

  /** A lookup returns the very first target of that host, in the order of preset names and then of targets. */
  lemma {:induction false} LookupIsFirst(c: Catalog, fold: string -> string, names: seq<string>, key: string)
      returns (k: nat, m: nat)
    requires forall n :: n in names ==> n in c
    ensures var found := FirstMatch(c, fold, names, key);
      if found.Some? then IsFirstMatch(c, fold, names, key, k, m) && c[names[k]].targets[m] == found.value
      else forall j, q :: 0 <= j < |names| && 0 <= q < |c[names[j]].targets| ==>
        fold(c[names[j]].targets[q].host) != key
  {
    k, m := 0, 0;
    if names != [] {
      assert names[0] in names;
      var ts := c[names[0]].targets;
      PresetsProofs.FirstInFacts(ts, fold, key);
      if FirstIn(ts, fold, key).Some? {
        m := FirstInAt(ts, fold, key);
      } else {
        assert forall q :: 0 <= q < |ts| ==> ts[q] in ts;
        var j, q := LookupIsFirst(c, fold, names[1..], key);
        k, m := j + 1, q;
      }
    }
  }
}
