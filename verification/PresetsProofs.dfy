// When a preset resolves, what it resolves to, and what merging a file can change.
module PresetsProofs {
  import opened Base
  import opened Model
  import opened Presets

  // ----------------------------------------------------- include paths

  /** A chain of includes that starts at `name`. */
  ghost predicate IsPath(c: Catalog, name: string, p: seq<string>) {
    && |p| >= 1 && p[0] == name
    && forall i: nat :: i + 1 < |p| ==> p[i] in c && p[i + 1] in c[p[i]].includes
  }

  ghost function Last(p: seq<string>): string
    requires |p| >= 1
  {
    p[|p| - 1]
  }

  ghost predicate Reachable(c: Catalog, name: string, n: string) {
    exists p :: IsPath(c, name, p) && Last(p) == n
  }

  /** The path ends in an unknown name, or back at a preset it went through. */
  ghost predicate Broken(c: Catalog, p: seq<string>)
    requires |p| >= 1
  {
    Last(p) !in c || Last(p) in p[..|p| - 1]
  }

  lemma PrependPath(c: Catalog, n: string, p: seq<string>)
    requires n in c && |p| >= 1 && p[0] in c[n].includes && IsPath(c, p[0], p)
    ensures IsPath(c, n, [n] + p) && Last([n] + p) == Last(p)
    ensures ([n] + p)[..|p|] == [n] + p[..|p| - 1]
  {
    var q := [n] + p;
    forall i: nat | i + 1 < |q| ensures q[i] in c && q[i + 1] in c[q[i]].includes {
      if i > 0 {
        assert q[i] == p[i - 1] && q[i + 1] == p[i - 1 + 1];
      }
    }
  }

  lemma PathTail(c: Catalog, n: string, p: seq<string>)
    requires IsPath(c, n, p) && |p| >= 2
    ensures n in c && p[1] in c[n].includes && IsPath(c, p[1], p[1..]) && Last(p[1..]) == Last(p)
  {
    assert p[0] in c && p[0 + 1] in c[p[0]].includes;
    var q := p[1..];
    forall i: nat | i + 1 < |q| ensures q[i] in c && q[i + 1] in c[q[i]].includes {
      assert q[i] == p[i + 1] && q[i + 1] == p[i + 1 + 1];
    }
  }

  // ------------------------------------------------------------- errors

  /** The error names the path it was found on. */
  ghost predicate Explains(c: Catalog, stack: seq<string>, n: string, e: ResolveError, p: seq<string>) {
    && IsPath(c, n, p) && e.name == Last(p)
    && if e.Unknown? then e.name !in c
       else e.stack == stack + p[..|p| - 1] && e.name in e.stack
  }

  lemma {:induction false} ErrorPath(c: Catalog, n: string, stack: seq<string>) returns (p: seq<string>)
    requires Flatten(c, n, stack).Err?
    ensures Explains(c, stack, n, Flatten(c, n, stack).error, p)
    decreases Free(c, stack), 0
  {
    if n in stack || n !in c {
      p := [n];
      assert stack + p[..0] == stack;
    } else {
      FreeShrinks(c, stack, n);
      var q := ErrorPathAll(c, c[n].includes, stack + [n]);
      PrependPath(c, n, q);
      p := [n] + q;
      ConcatAssoc(stack, [n], q[..|q| - 1]);
    }
  }

  lemma {:induction false} ErrorPathAll(c: Catalog, names: seq<string>, stack: seq<string>) returns (p: seq<string>)
    requires FlattenAll(c, names, stack).Err?
    ensures |p| >= 1 && p[0] in names && Explains(c, stack, p[0], FlattenAll(c, names, stack).error, p)
    decreases Free(c, stack), |names|
  {
    if Flatten(c, names[0], stack).Err? {
      p := ErrorPath(c, names[0], stack);
    } else {
      p := ErrorPathAll(c, names[1..], stack);
    }
  }

  lemma {:induction false} FlattenAllOk(c: Catalog, names: seq<string>, stack: seq<string>, n: string)
    requires FlattenAll(c, names, stack).Ok? && n in names
    ensures Flatten(c, n, stack).Ok?
    ensures forall t :: t in Flatten(c, n, stack).value ==> t in FlattenAll(c, names, stack).value
    decreases |names|
  {
    if n != names[0] {
      FlattenAllOk(c, names[1..], stack, n);
    }
  }

  /** After a success, no include path is broken. */
  lemma {:induction false} SuccessPath(c: Catalog, n: string, stack: seq<string>, p: seq<string>)
    requires Flatten(c, n, stack).Ok? && IsPath(c, n, p)
    ensures Last(p) in c && Last(p) !in stack && Last(p) !in p[..|p| - 1]
    decreases |p|
  {
    if |p| > 1 {
      PathTail(c, n, p);
      FlattenAllOk(c, c[n].includes, stack + [n], p[1]);
      SuccessPath(c, p[1], stack + [n], p[1..]);
      assert p[..|p| - 1] == [n] + p[1..][..|p| - 2];
    }
  }

  /** Resolve fails exactly when an unknown name or an include cycle is reachable. */
  lemma ResolveFailsIff(c: Catalog, fold: string -> string, name: string)
    ensures Resolved(c, fold, name).Err? <==> exists p :: IsPath(c, name, p) && Broken(c, p)
  {
    if Flatten(c, name, []).Err? {
      var p := ErrorPath(c, name, []);
      assert [] + p[..|p| - 1] == p[..|p| - 1];
      assert Broken(c, p);
    } else {
      forall p | IsPath(c, name, p) ensures !Broken(c, p) {
        SuccessPath(c, name, [], p);
      }
    }
  }

  /** The error is the evidence: an unknown reachable name, or the cycle as it was walked. */
  lemma ResolveErrorIsEvidence(c: Catalog, fold: string -> string, name: string)
    requires Resolved(c, fold, name).Err?
    ensures match Resolved(c, fold, name).error
      case Unknown(n) => n !in c && Reachable(c, name, n)
      case Cycle(stack, n) => n in stack && IsPath(c, name, stack + [n])
  {
    var p := ErrorPath(c, name, []);
    assert [] + p[..|p| - 1] == p[..|p| - 1];
    assert p == p[..|p| - 1] + [Last(p)];
  }

  // ------------------------------------------------------------ content

  lemma {:induction false} FlattenAllContent(c: Catalog, names: seq<string>, stack: seq<string>, t: Target)
      returns (n: string)
    requires FlattenAll(c, names, stack).Ok? && t in FlattenAll(c, names, stack).value
    ensures n in names && Flatten(c, n, stack).Ok? && t in Flatten(c, n, stack).value
    decreases |names|
  {
    if t in Flatten(c, names[0], stack).value {
      n := names[0];
    } else {
      n := FlattenAllContent(c, names[1..], stack, t);
    }
  }

  lemma {:induction false} FlattenComesFrom(c: Catalog, n: string, stack: seq<string>, t: Target)
      returns (p: seq<string>)
    requires Flatten(c, n, stack).Ok? && t in Flatten(c, n, stack).value
    ensures IsPath(c, n, p) && Last(p) in c && t in c[Last(p)].targets
    decreases Free(c, stack)
  {
    if t in c[n].targets {
      p := [n];
    } else {
      FreeShrinks(c, stack, n);
      var inc := FlattenAllContent(c, c[n].includes, stack + [n], t);
      var q := FlattenComesFrom(c, inc, stack + [n], t);
      PrependPath(c, n, q);
      p := [n] + q;
    }
  }

  lemma {:induction false} FlattenHasAll(c: Catalog, n: string, stack: seq<string>, p: seq<string>, t: Target)
    requires Flatten(c, n, stack).Ok? && IsPath(c, n, p)
    requires Last(p) in c && t in c[Last(p)].targets
    ensures t in Flatten(c, n, stack).value
    decreases |p|
  {
    if |p| > 1 {
      PathTail(c, n, p);
      FlattenAllOk(c, c[n].includes, stack + [n], p[1]);
      FlattenHasAll(c, p[1], stack + [n], p[1..], t);
    }
  }

  // -------------------------------------------------- de-duplication

  /** The targets whose host does not occur earlier, in order. */
  ghost function FirstOccurrences(fold: string -> string, ts: seq<Target>): seq<Target> {
    if ts == [] then []
    else
      var init, t := ts[..|ts| - 1], ts[|ts| - 1];
      FirstOccurrences(fold, init)
        + if exists u :: u in init && fold(u.host) == fold(t.host) then [] else [t]
  }

  lemma {:induction false} ExtendKeys(fold: string -> string, out: seq<Target>, ts: seq<Target>)
    ensures HostKeys(fold, Extend(fold, out, ts)) == HostKeys(fold, out) + HostKeys(fold, ts)
    decreases |ts|
  {
    if ts != [] {
      var out' := if fold(ts[0].host) in HostKeys(fold, out) then out else out + [ts[0]];
      assert ts == [ts[0]] + ts[1..];
      assert HostKeys(fold, out') == HostKeys(fold, out) + {fold(ts[0].host)};
      assert HostKeys(fold, ts) == {fold(ts[0].host)} + HostKeys(fold, ts[1..]);
      ExtendKeys(fold, out', ts[1..]);
    }
  }

  /** The walk's running de-duplication keeps exactly the first occurrences. */
  lemma {:induction false} ExtendIsFirstOccurrences(fold: string -> string, ts: seq<Target>)
    ensures Extend(fold, [], ts) == FirstOccurrences(fold, ts)
    decreases |ts|
  {
    if ts != [] {
      var init, t := ts[..|ts| - 1], ts[|ts| - 1];
      assert ts == init + [t];
      ExtendConcat(fold, [], init, [t]);
      ExtendIsFirstOccurrences(fold, init);
      ExtendKeys(fold, [], init);
      assert HostKeys(fold, []) == {};
      var out := Extend(fold, [], init);
      assert Extend(fold, out, [t]) == if fold(t.host) in HostKeys(fold, out) then out else out + [t];
    }
  }

  lemma {:induction false} FirstOccurrencesKeep(fold: string -> string, ts: seq<Target>)
    ensures forall t :: t in FirstOccurrences(fold, ts) ==> t in ts
  {
    if ts != [] {
      FirstOccurrencesKeep(fold, ts[..|ts| - 1]);
    }
  }

  lemma {:induction false} FirstOccurrencesCover(fold: string -> string, ts: seq<Target>, t: Target)
    requires t in ts
    ensures exists u :: u in FirstOccurrences(fold, ts) && fold(u.host) == fold(t.host)
    decreases |ts|
  {
    var init, last := ts[..|ts| - 1], ts[|ts| - 1];
    if t in init {
      FirstOccurrencesCover(fold, init, t);
    } else if u :| u in init && fold(u.host) == fold(last.host) {
      assert t == last;
      FirstOccurrencesCover(fold, init, u);
    } else {
      assert last in FirstOccurrences(fold, ts);
    }
  }

  ghost predicate DistinctHosts(fold: string -> string, ts: seq<Target>) {
    forall i, j :: 0 <= i < j < |ts| ==> fold(ts[i].host) != fold(ts[j].host)
  }

  lemma {:induction false} FirstOccurrencesDistinct(fold: string -> string, ts: seq<Target>)
    ensures DistinctHosts(fold, FirstOccurrences(fold, ts))
  {
    if ts != [] {
      var init, last := ts[..|ts| - 1], ts[|ts| - 1];
      var kept := FirstOccurrences(fold, init);
      FirstOccurrencesDistinct(fold, init);
      FirstOccurrencesKeep(fold, init);
      if !exists u :: u in init && fold(u.host) == fold(last.host) {
        assert forall i :: 0 <= i < |kept| ==> kept[i] in init;
      }
    }
  }

  lemma ResolvedIsFirstOccurrences(c: Catalog, fold: string -> string, name: string)
    requires Resolved(c, fold, name).Ok?
    ensures Flatten(c, name, []).Ok?
    ensures Resolved(c, fold, name).value == FirstOccurrences(fold, Flatten(c, name, []).value)
  {
    ExtendIsFirstOccurrences(fold, Flatten(c, name, []).value);
  }

  /** Every target a successful Resolve returns is one of a reachable preset's own. */
  lemma ResolvedOrigin(c: Catalog, fold: string -> string, name: string, t: Target) returns (n: string)
    requires Resolved(c, fold, name).Ok? && t in Resolved(c, fold, name).value
    ensures Reachable(c, name, n) && n in c && t in c[n].targets
  {
    ResolvedIsFirstOccurrences(c, fold, name);
    FirstOccurrencesKeep(fold, Flatten(c, name, []).value);
    var p := FlattenComesFrom(c, name, [], t);
    n := Last(p);
  }

  ghost predicate HasHost(fold: string -> string, ts: seq<Target>, key: string) {
    exists u :: u in ts && fold(u.host) == key
  }

  /** Every host of a reachable preset is returned. */
  lemma ResolvedCovers(c: Catalog, fold: string -> string, name: string, n: string, t: Target)
    requires Resolved(c, fold, name).Ok? && Reachable(c, name, n) && n in c && t in c[n].targets
    ensures HasHost(fold, Resolved(c, fold, name).value, fold(t.host))
  {
    var p :| IsPath(c, name, p) && Last(p) == n;
    ResolvedIsFirstOccurrences(c, fold, name);
    FlattenHasAll(c, name, [], p, t);
    FirstOccurrencesCover(fold, Flatten(c, name, []).value, t);
  }

  /** What a successful Resolve returns: one target per reachable host, the first one met. */
  lemma ResolveContent(c: Catalog, fold: string -> string, name: string)
    requires Resolved(c, fold, name).Ok?
    ensures var r := Resolved(c, fold, name).value;
      && r == FirstOccurrences(fold, Flatten(c, name, []).value)
      && DistinctHosts(fold, r)
      && (forall t :: t in r ==> exists n :: Reachable(c, name, n) && n in c && t in c[n].targets)
      && (forall n, t :: Reachable(c, name, n) && n in c && t in c[n].targets ==> HasHost(fold, r, fold(t.host)))
  {
    var r := Resolved(c, fold, name).value;
    ResolvedIsFirstOccurrences(c, fold, name);
    FirstOccurrencesDistinct(fold, Flatten(c, name, []).value);
    forall t | t in r ensures exists n :: Reachable(c, name, n) && n in c && t in c[n].targets {
      var n := ResolvedOrigin(c, fold, name, t);
    }
    forall n, t | Reachable(c, name, n) && n in c && t in c[n].targets ensures HasHost(fold, r, fold(t.host)) {
      ResolvedCovers(c, fold, name, n, t);
    }
  }

  // ------------------------------------------------------------- lookup

  lemma {:induction false} IncreasingUnique(a: seq<string>, b: seq<string>)
    requires Increasing(a) && Increasing(b) && SameElements(a, b)
    ensures a == b
  {
    SameEmptiness(a, b);
    if a != [] {
      assert a[0] in b && b[0] in a;
      var i :| 0 <= i < |b| && b[i] == a[0];
      var j :| 0 <= j < |a| && a[j] == b[0];
      StrLessTrichotomy(a[0], b[0]);
      assert i == 0 && j == 0;
      assert a == [a[0]] + a[1..] && b == [b[0]] + b[1..];
      NotInTail(a);
      NotInTail(b);
      forall x ensures x in a[1..] <==> x in b[1..] {
        assert x in a <==> x == a[0] || x in a[1..];
        assert x in b <==> x == b[0] || x in b[1..];
        assert x in a <==> x in b;
      }
      IncreasingUnique(a[1..], b[1..]);
    }
  }

  lemma NotInTail(a: seq<string>)
    requires Increasing(a) && a != []
    ensures a[0] !in a[1..]
  {
    if a[0] in a[1..] {
      var i :| 0 <= i < |a| - 1 && a[1..][i] == a[0];
      StrLessTrichotomy(a[0], a[i + 1]);
    }
  }

  lemma {:induction false} FirstInFacts(ts: seq<Target>, fold: string -> string, key: string)
    ensures FirstIn(ts, fold, key).None? <==> forall t :: t in ts ==> fold(t.host) != key
    ensures FirstIn(ts, fold, key).Some? ==>
      FirstIn(ts, fold, key).value in ts && fold(FirstIn(ts, fold, key).value.host) == key
  {
    if ts != [] {
      FirstInFacts(ts[1..], fold, key);
      assert ts == [ts[0]] + ts[1..];
    }
  }

  lemma {:induction false} FirstMatchFacts(c: Catalog, fold: string -> string, names: seq<string>, key: string)
    requires forall n :: n in names ==> n in c
    ensures FirstMatch(c, fold, names, key).None? <==>
      forall n, t :: n in names && t in c[n].targets ==> fold(t.host) != key
    ensures FirstMatch(c, fold, names, key).Some? ==> fold(FirstMatch(c, fold, names, key).value.host) == key
  {
    if names != [] {
      FirstInFacts(c[names[0]].targets, fold, key);
      FirstMatchFacts(c, fold, names[1..], key);
      assert names == [names[0]] + names[1..];
      assert names[0] in names;
    }
  }

  /** The order Lookup searches in is determined by the catalog, so its result is too. */
  lemma LookupIsDetermined(c: Catalog, a: seq<string>, b: seq<string>)
    requires IsNames(c, a) && IsNames(c, b)
    ensures a == b
  {
    IncreasingUnique(a, b);
  }

  /** Lookup finds every host that any preset resolves to. */
  lemma LookupFindsResolved(c: Catalog, fold: string -> string, name: string, t: Target, names: seq<string>)
    requires Resolved(c, fold, name).Ok? && t in Resolved(c, fold, name).value
    requires IsNames(c, names)
    ensures var found := FirstMatch(c, fold, names, fold(t.host));
      found.Some? && fold(found.value.host) == fold(t.host)
  {
    var n := ResolvedOrigin(c, fold, name, t);
    FirstMatchFacts(c, fold, names, fold(t.host));
    assert n in names;
  }

  // -------------------------------------------------------------- merge

  lemma ReachableStep(c: Catalog, n: string, inc: string, x: string)
    requires n in c && inc in c[n].includes && Reachable(c, inc, x)
    ensures Reachable(c, n, x)
  {
    var p :| IsPath(c, inc, p) && Last(p) == x;
    PrependPath(c, n, p);
  }

  lemma {:induction false} FlattenFrame(c: Catalog, f: Catalog, n: string, stack: seq<string>)
    requires forall x :: Reachable(c, n, x) ==> x !in f
    ensures Flatten(c + f, n, stack) == Flatten(c, n, stack)
    decreases Free(c, stack), 0
  {
    assert IsPath(c, n, [n]) && Last([n]) == n;
    assert Reachable(c, n, n);
    if n in c && n !in stack {
      FreeShrinks(c, stack, n);
      forall inc, x | inc in c[n].includes && Reachable(c, inc, x) ensures x !in f {
        ReachableStep(c, n, inc, x);
      }
      FlattenAllFrame(c, f, c[n].includes, stack + [n]);
    }
  }

  lemma {:induction false} FlattenAllFrame(c: Catalog, f: Catalog, names: seq<string>, stack: seq<string>)
    requires forall n, x :: n in names && Reachable(c, n, x) ==> x !in f
    ensures FlattenAll(c + f, names, stack) == FlattenAll(c, names, stack)
    decreases Free(c, stack), |names|
  {
    if names != [] {
      assert names == [names[0]] + names[1..];
      FlattenFrame(c, f, names[0], stack);
      FlattenAllFrame(c, f, names[1..], stack);
    }
  }

  /** A merged file that defines no reachable name leaves Resolve's outcome as it was. */
  lemma MergeFrame(c: Catalog, f: Catalog, fold: string -> string, name: string)
    requires forall x :: Reachable(c, name, x) ==> x !in f
    ensures Resolved(c + f, fold, name) == Resolved(c, fold, name)
  {
    FlattenFrame(c, f, name, []);
  }
}
