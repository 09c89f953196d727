// Named target lists that include one another (internal/presets). The include graph
// is user-editable, so it may have cycles and dangling names. Case folding of hosts
// is a parameter: everything here holds for every folding function.
module Presets {
  import opened Base
  import opened Model

  datatype Preset = Preset(targets: seq<Target>, includes: seq<string>)

  type Catalog = map<string, Preset>

  datatype ResolveError = Cycle(stack: seq<string>, name: string) | Unknown(name: string)

  datatype PresetFile = PresetFile(default_: string, presets: Catalog)

  // ------------------------------------------------------------ expansion

  /** The known names that are not on the stack. */
  ghost function Free(c: Catalog, stack: seq<string>): set<string> {
    set n | n in c && n !in stack
  }

  lemma FreeShrinks(c: Catalog, stack: seq<string>, n: string)
    requires n in c && n !in stack
    ensures Free(c, stack + [n]) < Free(c, stack)
  {
    assert n in Free(c, stack) && n !in Free(c, stack + [n]);
  }

  /** Every target under preset `n`, includes first, duplicates kept; or the first error met. */
  ghost function Flatten(c: Catalog, n: string, stack: seq<string>): Result<seq<Target>, ResolveError>
    decreases Free(c, stack), 0
  {
    if n in stack then Err(Cycle(stack, n))
    else if n !in c then Err(Unknown(n))
    else
      FreeShrinks(c, stack, n);
      Then(FlattenAll(c, c[n].includes, stack + [n]), Ok(c[n].targets))
  }

  ghost function FlattenAll(c: Catalog, names: seq<string>, stack: seq<string>): Result<seq<Target>, ResolveError>
    decreases Free(c, stack), |names|
  {
    if names == [] then Ok([])
    else Then(Flatten(c, names[0], stack), FlattenAll(c, names[1..], stack))
  }

  /** The first error, or both lists. */
  function Then(a: Result<seq<Target>, ResolveError>, b: Result<seq<Target>, ResolveError>)
    : Result<seq<Target>, ResolveError>
  {
    if a.Err? then a else if b.Err? then b else Ok(a.value + b.value)
  }

  lemma ThenAssoc(a: seq<Target>, b: Result<seq<Target>, ResolveError>, c: Result<seq<Target>, ResolveError>)
    ensures Then(Ok(a), Then(b, c)) == Then(Then(Ok(a), b), c)
  {
    if b.Ok? && c.Ok? {
      ConcatAssoc(a, b.value, c.value);
    }
  }

  ghost function HostKeys(fold: string -> string, ts: seq<Target>): set<string> {
    set t | t in ts :: fold(t.host)
  }

  /** `out` followed by those of `ts` whose host is new. */
  ghost function Extend(fold: string -> string, out: seq<Target>, ts: seq<Target>): seq<Target>
    decreases |ts|
  {
    if ts == [] then out
    else Extend(fold, if fold(ts[0].host) in HostKeys(fold, out) then out else out + [ts[0]], ts[1..])
  }

  lemma {:induction false} ExtendConcat(fold: string -> string, out: seq<Target>, a: seq<Target>, b: seq<Target>)
    ensures Extend(fold, out, a + b) == Extend(fold, Extend(fold, out, a), b)
    decreases |a|
  {
    if a == [] {
      assert a + b == b;
    } else {
      assert (a + b)[1..] == a[1..] + b;
      ExtendConcat(fold, if fold(a[0].host) in HostKeys(fold, out) then out else out + [a[0]], a[1..], b);
    }
  }

  /** What Resolve must return. */
  ghost function Resolved(c: Catalog, fold: string -> string, name: string): Result<seq<Target>, ResolveError> {
    match Flatten(c, name, [])
    case Err(e) => Err(e)
    case Ok(ts) => Ok(Extend(fold, [], ts))
  }

  /** The state the recursive walk of Resolve shares: the output so far and the hosts seen. */
  class Walker {
    const presets: Catalog
    const fold: string -> string
    var out: seq<Target>
    var seen: set<string>

    constructor (presets: Catalog, fold: string -> string)
      ensures this.presets == presets && this.fold == fold
      ensures Valid() && out == []
    {
      this.presets, this.fold := presets, fold;
      out, seen := [], {};
    }

    ghost predicate Valid()
      reads this
    {
      seen == HostKeys(fold, out)
    }

    method Walk(n: string, stack: seq<string>) returns (err: Option<ResolveError>)
      requires Valid()
      modifies this
      ensures Valid()
      ensures var flat := Flatten(presets, n, stack);
        if flat.Err? then err == Some(flat.error)
        else err == None && out == Extend(fold, old(out), flat.value)
      decreases Free(presets, stack)
    {
      for i := 0 to |stack|
        invariant n !in stack[..i]
      {
        if stack[i] == n {
          return Some(Cycle(stack, n));
        }
      }
      if n !in presets {
        return Some(Unknown(n));
      }
      var p := presets[n];
      FreeShrinks(presets, stack, n);
      ghost var done: seq<Target> := [];
      ghost var all := FlattenAll(presets, p.includes, stack + [n]);
      assert p.includes[0..] == p.includes && (all.Ok? ==> [] + all.value == all.value);
      for i := 0 to |p.includes|
        invariant Valid() && out == Extend(fold, old(out), done)
        invariant all == Then(Ok(done), FlattenAll(presets, p.includes[i..], stack + [n]))
      {
        ghost var rest := p.includes[i..];
        assert rest[0] == p.includes[i] && rest[1..] == p.includes[i + 1..];
        ghost var flat := Flatten(presets, p.includes[i], stack + [n]);
        err := Walk(p.includes[i], stack + [n]);
        if err.Some? {
          return err;
        }
        ThenAssoc(done, flat, FlattenAll(presets, rest[1..], stack + [n]));
        ExtendConcat(fold, old(out), done, flat.value);
        done := done + flat.value;
      }
      assert p.includes[|p.includes|..] == [] && done + [] == done;
      AppendOwn(p.targets);
      ExtendConcat(fold, old(out), done, p.targets);
      return None;
    }

    /** The second loop of the walk: a preset's own targets. */
    method AppendOwn(targets: seq<Target>)
      requires Valid()
      modifies this
      ensures Valid() && out == Extend(fold, old(out), targets)
    {
      for i := 0 to |targets|
        invariant Valid()
        invariant Extend(fold, old(out), targets) == Extend(fold, out, targets[i..])
      {
        assert targets[i..][1..] == targets[i + 1..];
        var t := targets[i];
        var key := fold(t.host);
        if key !in seen {
          seen := seen + {key};
          out := out + [t];
        }
      }
    }
  }

  // ---------------------------------------------------------------- names

  /** Byte-wise (equivalently code-point-wise) order of strings. */
  predicate StrLess(a: string, b: string) {
    b != [] && (a == [] || a[0] < b[0] || (a[0] == b[0] && StrLess(a[1..], b[1..])))
  }

  lemma {:induction false} StrLessTrichotomy(a: string, b: string)
    ensures a == b || StrLess(a, b) || StrLess(b, a)
    ensures !(StrLess(a, b) && (StrLess(b, a) || a == b))
  {
    if a != [] && b != [] {
      StrLessTrichotomy(a[1..], b[1..]);
      assert a == [a[0]] + a[1..] && b == [b[0]] + b[1..];
    }
  }

  lemma {:induction false} StrLessTransitive(a: string, b: string, c: string)
    requires StrLess(a, b) && StrLess(b, c)
    ensures StrLess(a, c)
  {
    if a != [] && a[0] == b[0] == c[0] {
      StrLessTransitive(a[1..], b[1..], c[1..]);
    }
  }

  ghost predicate Increasing(names: seq<string>) {
    forall i, j :: 0 <= i < j < |names| ==> StrLess(names[i], names[j])
  }

  /** The names of a catalog in sorted order. */
  ghost predicate IsNames(c: Catalog, names: seq<string>) {
    Increasing(names) && forall n :: n in names <==> n in c
  }

  /** sort.Strings, one element at a time. */
  function Insert(x: string, names: seq<string>): (r: seq<string>)
    ensures forall n :: n in r <==> n == x || n in names
  {
    if names == [] then [x]
    else if StrLess(x, names[0]) then [x] + names
    else
      assert names == [names[0]] + names[1..];
      [names[0]] + Insert(x, names[1..])
  }

  function SortStrings(names: seq<string>): (r: seq<string>)
    ensures forall n :: n in r <==> n in names
  {
    if names == [] then []
    else
      assert names == [names[0]] + names[1..];
      Insert(names[0], SortStrings(names[1..]))
  }

  lemma {:induction false} InsertIncreasing(x: string, names: seq<string>)
    requires Increasing(names) && x !in names
    ensures Increasing(Insert(x, names))
  {
    if names != [] {
      StrLessTrichotomy(x, names[0]);
      if StrLess(x, names[0]) {
        forall j | 0 <= j < |names| ensures StrLess(x, names[j]) {
          if j > 0 {
            StrLessTransitive(x, names[0], names[j]);
          }
        }
      } else {
        InsertIncreasing(x, names[1..]);
        var r := Insert(x, names[1..]);
        forall j | 0 <= j < |r| ensures StrLess(names[0], r[j]) {
          assert r[j] in r;
        }
      }
    }
  }

  lemma {:induction false} SortIncreasing(names: seq<string>)
    requires NoDup(names)
    ensures Increasing(SortStrings(names))
  {
    if names != [] {
      SortIncreasing(names[1..]);
      InsertIncreasing(names[0], SortStrings(names[1..]));
    }
  }

  /** The first target with a folded host, in the order of `names`. */
  function FirstMatch(c: Catalog, fold: string -> string, names: seq<string>, key: string): Option<Target>
    requires forall n :: n in names ==> n in c
  {
    if names == [] then None
    else
      assert names[0] in names;
      var here := FirstIn(c[names[0]].targets, fold, key);
      if here.Some? then here else FirstMatch(c, fold, names[1..], key)
  }

  function FirstIn(ts: seq<Target>, fold: string -> string, key: string): Option<Target> {
    if ts == [] then None
    else if fold(ts[0].host) == key then Some(ts[0])
    else FirstIn(ts[1..], fold, key)
  }

  // -------------------------------------------------------------- the set

  /** A merged collection of presets. */
  class PresetSet {
    const fold: string -> string
    var default_: string
    var presets: Catalog

    constructor (fold: string -> string, f: PresetFile)
      ensures this.fold == fold && default_ == f.default_ && presets == f.presets
    {
      this.fold := fold;
      default_, presets := f.default_, f.presets;
    }

    /** Adds or replaces presets from `f`, in whatever order the map is iterated. */
    method Merge(f: PresetFile)
      modifies this
      ensures default_ == if f.default_ != "" then f.default_ else old(default_)
      ensures presets == old(presets) + f.presets
    {
      if f.default_ != "" {
        default_ := f.default_;
      }
      var rest := f.presets.Keys;
      while rest != {}
        invariant rest <= f.presets.Keys
        invariant presets == old(presets) + (map n | n in f.presets && n !in rest :: f.presets[n])
        invariant default_ == if f.default_ != "" then f.default_ else old(default_)
        decreases rest
      {
        var name :| name in rest;
        presets := presets[name := f.presets[name]];
        rest := rest - {name};
      }
      assert (map n | n in f.presets && n !in rest :: f.presets[n]) == f.presets;
    }

    /** The preset names, sorted. */
    method Names() returns (names: seq<string>)
      ensures IsNames(presets, names)
    {
      names := [];
      var rest := presets.Keys;
      while rest != {}
        invariant rest <= presets.Keys && NoDup(names)
        invariant forall n :: n in names <==> n in presets && n !in rest
        decreases rest
      {
        var n :| n in rest;
        names := names + [n];
        rest := rest - {n};
      }
      SortIncreasing(names);
      names := SortStrings(names);
    }

    method Resolve(name: string) returns (r: Result<seq<Target>, ResolveError>)
      ensures r == Resolved(presets, fold, name)
    {
      var w := new Walker(presets, fold);
      var err := w.Walk(name, []);
      if err.Some? {
        return Err(err.value);
      }
      return Ok(w.out);
    }

    method Lookup(host: string) returns (r: Option<Target>)
      ensures exists names :: IsNames(presets, names) && r == FirstMatch(presets, fold, names, fold(host))
    {
      var key := fold(host);
      var names := Names();
      for i := 0 to |names|
        invariant FirstMatch(presets, fold, names, key) == FirstMatch(presets, fold, names[i..], key)
      {
        assert names[i..][1..] == names[i + 1..];
        var targets := presets[names[i]].targets;
        for j := 0 to |targets|
          invariant FirstIn(targets, fold, key) == FirstIn(targets[j..], fold, key)
        {
          assert targets[j..][1..] == targets[j + 1..];
          if fold(targets[j].host) == key {
            return Some(targets[j]);
          }
        }
      }
      return None;
    }
  }
}
