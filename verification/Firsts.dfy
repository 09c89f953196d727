// Keeping the first element of every key, in order: what removing duplicates means,
// stated by positions and not by how it is done.
module Firsts {
  import opened Base

  /** No earlier element has the key of the one at `n`. */
  ghost predicate IsNew<T, K>(key: T -> K, s: seq<T>, n: nat)
    requires n < |s|
  {
    forall m :: 0 <= m < n ==> key(s[m]) != key(s[n])
  }

  /** `out` holds the elements of `s` whose key is new, in order, taken from the positions `at`. */
  ghost predicate IsFirsts<T, K>(key: T -> K, s: seq<T>, out: seq<T>, at: seq<nat>) {
    && |at| == |out|
    && (forall i :: 0 <= i < |at| ==> at[i] < |s| && out[i] == s[at[i]] && IsNew(key, s, at[i]))
    && (forall i, j :: 0 <= i < j < |at| ==> at[i] < at[j])
    && (forall n: nat :: n < |s| && IsNew(key, s, n) ==> n in at)
  }

  ghost predicate KeyIn<T, K>(key: T -> K, s: seq<T>, k: K) {
    exists m :: 0 <= m < |s| && key(s[m]) == k
  }

  lemma NewInPrefix<T, K>(key: T -> K, s: seq<T>, x: T, n: nat)
    requires n < |s|
    ensures IsNew(key, s + [x], n) <==> IsNew(key, s, n)
  {
    assert forall m :: 0 <= m <= n ==> (s + [x])[m] == s[m];
  }

  lemma NewAtEnd<T, K>(key: T -> K, s: seq<T>, x: T)
    ensures IsNew(key, s + [x], |s|) <==> !KeyIn(key, s, key(x))
  {
    assert (s + [x])[|s|] == x && forall m :: 0 <= m < |s| ==> (s + [x])[m] == s[m];
  }

  /** What was kept before one more element is kept behind it. */
  lemma StillKept<T, K>(key: T -> K, s: seq<T>, out: seq<T>, at: seq<nat>, x: T, i: nat)
    requires IsFirsts(key, s, out, at) && i < |at|
    ensures at[i] < |s + [x]| && out[i] == (s + [x])[at[i]] && IsNew(key, s + [x], at[i])
  {
    NewInPrefix(key, s, x, at[i]);
  }

  lemma NewBefore<T, K>(key: T -> K, s: seq<T>, out: seq<T>, at: seq<nat>, x: T, n: nat)
    requires IsFirsts(key, s, out, at) && n < |s| && IsNew(key, s + [x], n)
    ensures n in at
  {
    NewInPrefix(key, s, x, n);
  }

  lemma FirstsDrop<T, K>(key: T -> K, s: seq<T>, out: seq<T>, at: seq<nat>, x: T)
    requires IsFirsts(key, s, out, at) && KeyIn(key, s, key(x))
    ensures IsFirsts(key, s + [x], out, at)
  {
    var t := s + [x];
    NewAtEnd(key, s, x);
    forall i | 0 <= i < |at| ensures at[i] < |t| && out[i] == t[at[i]] && IsNew(key, t, at[i]) {
      StillKept(key, s, out, at, x, i);
    }
    forall n: nat | n < |t| && IsNew(key, t, n) ensures n in at {
      NewBefore(key, s, out, at, x, n);
    }
  }

  lemma FirstsJoin<T, K>(key: T -> K, s: seq<T>, out: seq<T>, at: seq<nat>, x: T)
    requires IsFirsts(key, s, out, at) && !KeyIn(key, s, key(x))
    ensures IsFirsts(key, s + [x], out + [x], at + [|s|])
  {
    var t, out', at' := s + [x], out + [x], at + [|s|];
    NewAtEnd(key, s, x);
    forall i | 0 <= i < |at'| ensures at'[i] < |t| && out'[i] == t[at'[i]] && IsNew(key, t, at'[i]) {
      if i < |at| {
        StillKept(key, s, out, at, x, i);
      }
    }
    forall n: nat | n < |t| && IsNew(key, t, n) ensures n in at' {
      if n < |s| {
        NewBefore(key, s, out, at, x, n);
      } else {
        assert at'[|at|] == n;
      }
    }
  }

  /** One more element joins, or is dropped because its key is taken. */
  lemma FirstsSnoc<T, K>(key: T -> K, s: seq<T>, out: seq<T>, at: seq<nat>, x: T) returns (at': seq<nat>)
    requires IsFirsts(key, s, out, at)
    ensures IsFirsts(key, s + [x], if KeyIn(key, s, key(x)) then out else out + [x], at')
  {
    if KeyIn(key, s, key(x)) {
      FirstsDrop(key, s, out, at, x);
      at' := at;
    } else {
      FirstsJoin(key, s, out, at, x);
      at' := at + [|s|];
    }
  }

  /** Positions with new keys and equal keys are equal. */
  lemma NewIsUnique<T, K>(key: T -> K, s: seq<T>, m: nat, n: nat)
    requires m < |s| && n < |s| && IsNew(key, s, m) && IsNew(key, s, n) && key(s[m]) == key(s[n])
    ensures m == n
  {
  }

  lemma {:induction false} FirstWithKey<T, K>(key: T -> K, s: seq<T>, k: K, bound: nat) returns (n: nat)
    requires bound < |s| && key(s[bound]) == k
    ensures n <= bound && key(s[n]) == k && IsNew(key, s, n)
    decreases bound
  {
    if m :| 0 <= m < bound && key(s[m]) == k {
      n := FirstWithKey(key, s, k, m);
    } else {
      n := bound;
    }
  }

  /** Every key is kept, once. */
  lemma FirstsKeys<T, K>(key: T -> K, s: seq<T>, out: seq<T>, at: seq<nat>)
    requires IsFirsts(key, s, out, at)
    ensures forall k :: KeyIn(key, s, k) <==> KeyIn(key, out, k)
    ensures forall i, j :: 0 <= i < j < |out| ==> key(out[i]) != key(out[j])
  {
    forall k | KeyIn(key, s, k) ensures KeyIn(key, out, k) {
      var b :| 0 <= b < |s| && key(s[b]) == k;
      var n := FirstWithKey(key, s, k, b);
      var i :| 0 <= i < |at| && at[i] == n;
      assert key(out[i]) == k;
    }
    forall k | KeyIn(key, out, k) ensures KeyIn(key, s, k) {
      var i :| 0 <= i < |out| && key(out[i]) == k;
      assert key(s[at[i]]) == k;
    }
  }

  /** The element at a new position is kept, and stands where its position ranks. */
  lemma FirstsKeep<T, K>(key: T -> K, s: seq<T>, out: seq<T>, at: seq<nat>, n: nat) returns (i: nat)
    requires IsFirsts(key, s, out, at) && n < |s| && IsNew(key, s, n)
    ensures i < |out| && at[i] == n && out[i] == s[n]
  {
    i :| 0 <= i < |at| && at[i] == n;
  }

  // ------------------------------------------------- several lists in a row

  function Concat<T>(parts: seq<seq<T>>): seq<T> {
    if parts == [] then [] else Concat(parts[..|parts| - 1]) + parts[|parts| - 1]
  }

  /** Where part `k` starts in the whole. */
  function Offset<T>(parts: seq<seq<T>>, k: nat): nat
    requires k <= |parts|
  {
    |Concat(parts[..k])|
  }

  lemma OffsetStep<T>(parts: seq<seq<T>>, k: nat)
    requires k < |parts|
    ensures Offset(parts, k + 1) == Offset(parts, k) + |parts[k]|
    ensures Concat(parts[..k + 1]) == Concat(parts[..k]) + parts[k]
  {
    assert parts[..k + 1][..k] == parts[..k];
  }

  lemma {:induction false} OffsetMonotone<T>(parts: seq<seq<T>>, j: nat, k: nat)
    requires j <= k <= |parts|
    ensures Offset(parts, j) <= Offset(parts, k)
    ensures Concat(parts[..j]) <= Concat(parts[..k])
    decreases k
  {
    if j < k {
      OffsetMonotone(parts, j, k - 1);
      OffsetStep(parts, k - 1);
    }
  }

  /** An element of a part, found in the whole. */
  lemma ConcatAt<T>(parts: seq<seq<T>>, k: nat, p: nat)
    requires k < |parts| && p < |parts[k]|
    ensures Offset(parts, k) + p < Offset(parts, k + 1) <= |Concat(parts)|
    ensures Concat(parts)[Offset(parts, k) + p] == parts[k][p]
  {
    OffsetStep(parts, k);
    OffsetMonotone(parts, k + 1, |parts|);
    assert parts[..|parts|] == parts;
  }

  /** An element of the whole, found in its part. */
  lemma {:induction false} Locate<T>(parts: seq<seq<T>>, n: nat) returns (k: nat, p: nat)
    requires n < |Concat(parts)|
    ensures k < |parts| && p < |parts[k]| && n == Offset(parts, k) + p
    decreases |parts|
  {
    var init := parts[..|parts| - 1];
    if n < |Concat(init)| {
      k, p := Locate(init, n);
      assert init[..k] == parts[..k];
    } else {
      k, p := |parts| - 1, n - |Concat(init)|;
    }
  }

  /** Positions in the whole are ordered by part, then within the part. */
  lemma ConcatOrder<T>(parts: seq<seq<T>>, j: nat, p: nat, k: nat, q: nat)
    requires j < |parts| && p < |parts[j]| && k < |parts| && q < |parts[k]|
    ensures Offset(parts, j) + p < Offset(parts, k) + q <==> j < k || (j == k && p < q)
  {
    OffsetStep(parts, j);
    OffsetStep(parts, k);
    if j < k {
      OffsetMonotone(parts, j + 1, k);
    } else if k < j {
      OffsetMonotone(parts, k + 1, j);
    }
  }

  lemma {:induction false} ConcatCons<T>(head: seq<T>, parts: seq<seq<T>>)
    ensures Concat([head] + parts) == head + Concat(parts)
  {
    if parts == [] {
      assert [head] + parts == [head] && [head][..0] == [];
    } else {
      var init := parts[..|parts| - 1];
      assert ([head] + parts)[..|parts|] == [head] + init;
      ConcatCons(head, init);
      ConcatAssoc(head, Concat(init), parts[|parts| - 1]);
    }
  }

  /** New in its part, and absent from every earlier part. */
  ghost predicate IsNewAt<T, K>(key: T -> K, parts: seq<seq<T>>, k: nat, p: nat)
    requires k < |parts| && p < |parts[k]|
  {
    IsNew(key, parts[k], p) && forall j :: 0 <= j < k ==> !KeyIn(key, parts[j], key(parts[k][p]))
  }

  lemma NewAtIff<T, K>(key: T -> K, parts: seq<seq<T>>, k: nat, p: nat)
    requires k < |parts| && p < |parts[k]|
    ensures Offset(parts, k) + p < |Concat(parts)|
    ensures IsNew(key, Concat(parts), Offset(parts, k) + p) <==> IsNewAt(key, parts, k, p)
  {
    ConcatAt(parts, k, p);
    if IsNewAt(key, parts, k, p) {
      forall m | 0 <= m < Offset(parts, k) + p ensures key(Concat(parts)[m]) != key(parts[k][p]) {
        var j, q := Locate(parts, m);
        ConcatAt(parts, j, q);
        ConcatOrder(parts, j, q, k, p);
        assert j < k ==> !KeyIn(key, parts[j], key(parts[k][p]));
      }
    }
    if IsNew(key, Concat(parts), Offset(parts, k) + p) {
      NewInWhole(key, parts, k, p);
    }
  }

  lemma NewInWhole<T, K>(key: T -> K, parts: seq<seq<T>>, k: nat, p: nat)
    requires k < |parts| && p < |parts[k]| && Offset(parts, k) + p < |Concat(parts)|
    requires IsNew(key, Concat(parts), Offset(parts, k) + p)
    ensures IsNewAt(key, parts, k, p)
  {
    ConcatAt(parts, k, p);
    forall q | 0 <= q < p ensures key(parts[k][q]) != key(parts[k][p]) {
      ConcatAt(parts, k, q);
    }
    forall j | 0 <= j < k ensures !KeyIn(key, parts[j], key(parts[k][p])) {
      forall q | 0 <= q < |parts[j]| ensures key(parts[j][q]) != key(parts[k][p]) {
        ConcatAt(parts, j, q);
        ConcatOrder(parts, j, q, k, p);
      }
    }
  }
}
