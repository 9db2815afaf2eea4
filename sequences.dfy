/** List operations the backend uses as library calls: slicing, filtering
    comprehensions, subsequences and `list.sort(key=..., reverse=True)`. */
module Sequences {
  import opened Optional

  function Min(a: int, b: int): int { if a <= b then a else b }

  /** Python `s[:n]` for any integer `n` (a negative `n` counts from the end). */
  function Take<T>(s: seq<T>, n: int): (r: seq<T>)
    ensures n >= 0 ==> |r| == Min(n, |s|)
    ensures n < 0 ==> |r| == if |s| + n < 0 then 0 else |s| + n
    ensures r == s[..|r|]
  {
    if n >= 0 then (if n <= |s| then s[..n] else s)
    else if |s| + n < 0 then [] else s[..|s| + n]
  }

  /** `[x for x in s if keep(x)]`. */
  function Filter<T>(s: seq<T>, keep: T -> bool): (r: seq<T>)
    ensures |r| <= |s|
    ensures forall i :: 0 <= i < |r| ==> keep(r[i])
  {
    if s == [] then []
    else
      var r0 := Filter(s[..|s| - 1], keep);
      if keep(s[|s| - 1]) then r0 + [s[|s| - 1]] else r0
  }

  lemma {:induction false} FilterAppend<T>(a: seq<T>, b: seq<T>, keep: T -> bool)
    ensures Filter(a + b, keep) == Filter(a, keep) + Filter(b, keep)
    decreases |b|
  {
    if b == [] {
      assert a + b == a;
    } else {
      var b0 := b[..|b| - 1];
      assert (a + b)[..|a + b| - 1] == a + b0;
      FilterAppend(a, b0, keep);
    }
  }

  /** One more element through `Filter`: appended exactly when kept. */
  lemma FilterStep<T>(s: seq<T>, i: nat, keep: T -> bool)
    requires i < |s|
    ensures Filter(s[..i + 1], keep) == Filter(s[..i], keep) + (if keep(s[i]) then [s[i]] else [])
  {
    assert s[..i + 1][..i] == s[..i];
  }

  /** A comprehension that converts some items and drops the others:
      `[f(x) for x in s if f(x) is not None]`. */
  function FilterMap<A, B>(s: seq<A>, f: A -> Option<B>): (r: seq<B>)
    ensures |r| <= |s|
  {
    if s == [] then []
    else
      var r0 := FilterMap(s[..|s| - 1], f);
      match f(s[|s| - 1])
      case Some(y) => r0 + [y]
      case None => r0
  }

  lemma {:induction false} FilterMapAppend<A, B>(a: seq<A>, b: seq<A>, f: A -> Option<B>)
    ensures FilterMap(a + b, f) == FilterMap(a, f) + FilterMap(b, f)
    decreases |b|
  {
    if b == [] {
      assert a + b == a;
    } else {
      var b0 := b[..|b| - 1];
      assert (a + b)[..|a + b| - 1] == a + b0;
      assert (a + b)[|a + b| - 1] == b[|b| - 1];
      FilterMapAppend(a, b0, f);
    }
  }

  /** Every converted item has a property `P` that `f` guarantees. */
  lemma {:induction false} FilterMapKeeps<A, B>(s: seq<A>, f: A -> Option<B>, P: B -> bool)
    requires forall j :: 0 <= j < |s| && f(s[j]).Some? ==> P(f(s[j]).value)
    ensures forall i :: 0 <= i < |FilterMap(s, f)| ==> P(FilterMap(s, f)[i])
  {
    if s != [] {
      var s0 := s[..|s| - 1];
      assert forall j :: 0 <= j < |s0| ==> s0[j] == s[j];
      FilterMapKeeps(s0, f, P);
    }
  }

  /** Nothing is kept exactly when `f` drops every item. */
  lemma {:induction false} FilterMapEmptyIff<A, B>(s: seq<A>, f: A -> Option<B>)
    ensures FilterMap(s, f) == [] <==> forall j :: 0 <= j < |s| ==> f(s[j]).None?
  {
    if s != [] {
      var s0 := s[..|s| - 1];
      assert forall j :: 0 <= j < |s0| ==> s0[j] == s[j];
      FilterMapEmptyIff(s0, f);
    }
  }

  /** When `f` keeps every item, `FilterMap` is the list of converted items. */
  lemma {:induction false} FilterMapAllSome<A, B>(s: seq<A>, f: A -> Option<B>, t: seq<B>)
    requires |s| == |t| && forall i :: 0 <= i < |s| ==> f(s[i]) == Some(t[i])
    ensures FilterMap(s, f) == t
  {
    if s != [] {
      var s0, t0 := s[..|s| - 1], t[..|t| - 1];
      assert forall i :: 0 <= i < |s0| ==> s0[i] == s[i] && t0[i] == t[i];
      FilterMapAllSome(s0, f, t0);
      var y := t[|t| - 1];
      assert f(s[|s| - 1]) == Some(y);
      assert FilterMap(s, f) == FilterMap(s0, f) + [y];
      assert t == t0 + [y];
    }
  }

  /** A step of a loop that builds `FilterMap` item by item, at an item
      that `f` converts. */
  lemma FilterMapStepSome<A, B>(s: seq<A>, i: nat, f: A -> Option<B>, y: B)
    requires i < |s| && f(s[i]) == Some(y)
    ensures FilterMap(s[..i + 1], f) == FilterMap(s[..i], f) + [y]
  {
    assert s[..i + 1][..i] == s[..i];
  }

  /** A step of the same loop at an item that `f` drops. */
  lemma FilterMapStepNone<A, B>(s: seq<A>, i: nat, f: A -> Option<B>)
    requires i < |s| && f(s[i]).None?
    ensures FilterMap(s[..i + 1], f) == FilterMap(s[..i], f)
  {
    assert s[..i + 1][..i] == s[..i];
  }

  /** A loop that builds `FilterMap(s, f)` and stops once it holds `n`
      items yields the first `n` of them. */
  lemma TakeFilterMapPrefix<A, B>(s: seq<A>, i: nat, f: A -> Option<B>, n: nat)
    requires i <= |s| && |FilterMap(s[..i], f)| == n
    ensures Take(FilterMap(s, f), n) == FilterMap(s[..i], f)
  {
    assert s == s[..i] + s[i..];
    FilterMapAppend(s[..i], s[i..], f);
  }

  /** `a` is obtained from `b` by deleting elements (order preserved). */
  predicate IsSubsequence<T(==)>(a: seq<T>, b: seq<T>)
    decreases |b|
  {
    if a == [] then true
    else if b == [] then false
    else if a[|a| - 1] == b[|b| - 1] then IsSubsequence(a[..|a| - 1], b[..|b| - 1])
    else IsSubsequence(a, b[..|b| - 1])
  }

  lemma {:induction false} SubsequenceExtend<T>(a: seq<T>, b: seq<T>, x: T)
    requires IsSubsequence(a, b)
    ensures IsSubsequence(a, b + [x])
    decreases |b|, 1
  {
    assert (b + [x])[..|b|] == b;
    if a != [] && a[|a| - 1] == x {
      SubsequenceDropLast(a, b);
    }
  }

  lemma {:induction false} SubsequenceDropLast<T>(a: seq<T>, b: seq<T>)
    requires a != [] && IsSubsequence(a, b)
    ensures IsSubsequence(a[..|a| - 1], b)
    decreases |b|, 0
  {
    var b0 := b[..|b| - 1];
    assert b == b0 + [b[|b| - 1]];
    if a[|a| - 1] == b[|b| - 1] {
      SubsequenceExtend(a[..|a| - 1], b0, b[|b| - 1]);
    } else {
      SubsequenceDropLast(a, b0);
      SubsequenceExtend(a[..|a| - 1], b0, b[|b| - 1]);
    }
  }

  lemma SubsequenceAppendBoth<T>(a: seq<T>, b: seq<T>, x: T)
    requires IsSubsequence(a, b)
    ensures IsSubsequence(a + [x], b + [x])
  {
    assert (a + [x])[..|a|] == a;
    assert (b + [x])[..|b|] == b;
  }

  /** A subsequence is no longer than its source and has only elements
      with a property every element of the source has. */
  lemma {:induction false} SubsequenceKeeps<T>(a: seq<T>, b: seq<T>, P: T -> bool)
    requires IsSubsequence(a, b)
    requires forall j :: 0 <= j < |b| ==> P(b[j])
    ensures |a| <= |b|
    ensures forall i :: 0 <= i < |a| ==> P(a[i])
    decreases |b|
  {
    if a != [] {
      var b0 := b[..|b| - 1];
      assert forall j :: 0 <= j < |b0| ==> b0[j] == b[j];
      if a[|a| - 1] == b[|b| - 1] {
        var a0 := a[..|a| - 1];
        SubsequenceKeeps(a0, b0, P);
        assert forall i :: 0 <= i < |a0| ==> a0[i] == a[i];
      } else {
        SubsequenceKeeps(a, b0, P);
      }
    }
  }

  /** Every prefix of a subsequence is a subsequence. */
  lemma {:induction false} SubsequencePrefix<T>(a: seq<T>, b: seq<T>, n: nat)
    requires IsSubsequence(a, b) && n <= |a|
    ensures IsSubsequence(a[..n], b)
    decreases |a| - n
  {
    if n < |a| {
      SubsequenceDropLast(a, b);
      SubsequencePrefix(a[..|a| - 1], b, n);
      assert a[..|a| - 1][..n] == a[..n];
    } else {
      assert a[..n] == a;
    }
  }

  lemma {:induction false} FilterIsSubsequence<T>(s: seq<T>, keep: T -> bool)
    ensures IsSubsequence(Filter(s, keep), s)
  {
    if s != [] {
      var s0 := s[..|s| - 1];
      FilterIsSubsequence(s0, keep);
      assert s == s0 + [s[|s| - 1]];
      if keep(s[|s| - 1]) {
        SubsequenceAppendBoth(Filter(s0, keep), s0, s[|s| - 1]);
      } else {
        SubsequenceExtend(Filter(s0, keep), s0, s[|s| - 1]);
      }
    }
  }

  /** A subsequence of a subsequence of `c` is a subsequence of `c`. */
  lemma {:induction false} SubsequenceTrans<T>(a: seq<T>, b: seq<T>, c: seq<T>)
    requires IsSubsequence(a, b) && IsSubsequence(b, c)
    ensures IsSubsequence(a, c)
    decreases |c|
  {
    if a != [] {
      var b0 := b[..|b| - 1];
      var c0 := c[..|c| - 1];
      assert c == c0 + [c[|c| - 1]];
      if b[|b| - 1] == c[|c| - 1] {
        if a[|a| - 1] == b[|b| - 1] {
          SubsequenceTrans(a[..|a| - 1], b0, c0);
        } else {
          SubsequenceTrans(a, b0, c0);
          SubsequenceExtend(a, c0, c[|c| - 1]);
        }
      } else {
        SubsequenceTrans(a, b, c0);
        SubsequenceExtend(a, c0, c[|c| - 1]);
      }
    }
  }

  /** The set `{f(x) for x in s}`, as a loop of `set.add` calls builds it. */
  function Keys<T, K>(s: seq<T>, f: T -> K): set<K>
    decreases |s|
  {
    if s == [] then {} else Keys(s[..|s| - 1], f) + {f(s[|s| - 1])}
  }

  lemma {:induction false} KeysMember<T, K>(s: seq<T>, f: T -> K, x: K)
    ensures x in Keys(s, f) <==> exists i :: 0 <= i < |s| && f(s[i]) == x
    decreases |s|
  {
    if s != [] {
      var s0 := s[..|s| - 1];
      KeysMember(s0, f, x);
      if x in Keys(s0, f) {
        var i :| 0 <= i < |s0| && f(s0[i]) == x;
        assert s[i] == s0[i];
      }
      if exists i :: 0 <= i < |s| && f(s[i]) == x {
        var i :| 0 <= i < |s| && f(s[i]) == x;
        if i < |s0| {
          assert s0[i] == s[i];
        }
      }
    }
  }

  lemma KeysStep<T, K>(s: seq<T>, k: nat, f: T -> K)
    requires k < |s|
    ensures Keys(s[..k + 1], f) == Keys(s[..k], f) + {f(s[k])}
  {
    assert s[..k + 1][..k] == s[..k];
  }

  /** Index of the first element satisfying `p`, or -1 when none does. */
  function FirstIndex<T>(s: seq<T>, p: T -> bool): (r: int)
    decreases |s|
    ensures -1 <= r < |s|
    ensures r != -1 ==> p(s[r])
    ensures forall j :: 0 <= j < |s| && (r == -1 || j < r) ==> !p(s[j])
  {
    if s == [] then -1
    else if p(s[0]) then 0
    else
      var r := FirstIndex(s[1..], p);
      assert forall j :: 0 < j < |s| ==> s[j] == s[1..][j - 1];
      if r == -1 then -1 else r + 1
  }

  /** `s` with its first element satisfying `p` replaced by `x`; unchanged
      when no element satisfies `p` or there is no `x`. */
  function ReplaceFirst<T>(s: seq<T>, p: T -> bool, x: Option<T>): seq<T> {
    var k := FirstIndex(s, p);
    if k == -1 || x.None? then s else s[k := x.value]
  }

  lemma ReplaceFirstShape<T>(s: seq<T>, p: T -> bool, x: Option<T>)
    ensures |ReplaceFirst(s, p, x)| == |s|
    ensures (forall i :: 0 <= i < |s| ==> !p(s[i])) ==> ReplaceFirst(s, p, x) == s
    ensures x.None? ==> ReplaceFirst(s, p, x) == s
  {
  }

  /** A changed position is the first one satisfying `p`, and holds `x`. */
  lemma ReplaceFirstAt<T>(s: seq<T>, p: T -> bool, x: Option<T>, j: nat)
    requires j < |s| && ReplaceFirst(s, p, x)[j] != s[j]
    ensures p(s[j]) && forall i :: 0 <= i < j ==> !p(s[i])
    ensures x.Some? && ReplaceFirst(s, p, x)[j] == x.value
  {
  }

  /** Index of the last element satisfying `p`, or -1 when none does. */
  function LastIndex<T>(s: seq<T>, p: T -> bool): (r: int)
    decreases |s|
    ensures -1 <= r < |s|
    ensures r != -1 ==> p(s[r])
    ensures forall j :: r < j < |s| ==> !p(s[j])
  {
    if s == [] then -1
    else if p(s[|s| - 1]) then |s| - 1
    else LastIndex(s[..|s| - 1], p)
  }

  /** `s` with the element at `i` removed (`del s[i]` / `s.pop(i)`). */
  function RemoveAt<T>(s: seq<T>, i: nat): (r: seq<T>)
    requires i < |s|
    ensures |r| == |s| - 1
    ensures forall j :: 0 <= j < |r| ==> r[j] == if j < i then s[j] else s[j + 1]
  {
    s[..i] + s[i + 1..]
  }

  lemma {:induction false} SubsequenceRefl<T>(s: seq<T>)
    ensures IsSubsequence(s, s)
  {
    if s != [] {
      SubsequenceRefl(s[..|s| - 1]);
    }
  }

  /** Deleting one element leaves a subsequence. */
  lemma {:induction false} RemoveAtIsSubsequence<T>(s: seq<T>, i: nat)
    requires i < |s|
    ensures IsSubsequence(RemoveAt(s, i), s)
    decreases |s|
  {
    if i == |s| - 1 {
      assert RemoveAt(s, i) == s[..|s| - 1];
      SubsequenceRefl(s[..|s| - 1]);
      SubsequenceExtend(s[..|s| - 1], s[..|s| - 1], s[|s| - 1]);
      assert s[..|s| - 1] + [s[|s| - 1]] == s;
    } else {
      var s0 := s[..|s| - 1];
      RemoveAtIsSubsequence(s0, i);
      assert RemoveAt(s0, i) + [s[|s| - 1]] == RemoveAt(s, i);
      assert s0 + [s[|s| - 1]] == s;
      SubsequenceAppendBoth(RemoveAt(s0, i), s0, s[|s| - 1]);
    }
  }

  /** No two elements share a key. */
  predicate DistinctBy<T, K(==)>(s: seq<T>, key: T -> K) {
    forall i, j :: 0 <= i < j < |s| ==> key(s[i]) != key(s[j])
  }

  lemma DistinctByAppend<T, K>(s: seq<T>, x: T, key: T -> K)
    requires DistinctBy(s, key)
    requires forall i :: 0 <= i < |s| ==> key(s[i]) != key(x)
    ensures DistinctBy(s + [x], key)
  {
    var t := s + [x];
    assert forall i :: 0 <= i < |s| ==> t[i] == s[i];
  }

  /** Removing an element keeps the keys distinct, and none of the
      remaining elements has the removed element's key. */
  lemma DistinctByRemoveAt<T, K>(s: seq<T>, i: nat, key: T -> K)
    requires DistinctBy(s, key) && i < |s|
    ensures DistinctBy(RemoveAt(s, i), key)
    ensures forall j :: 0 <= j < |RemoveAt(s, i)| ==> key(RemoveAt(s, i)[j]) != key(s[i])
  {
  }

  /** The elements of `s` whose key was not seen before, in order: the loop
      `if k in seen: continue; seen.add(k); out.append(x)`. */
  function FirstByKey<T, K(==)>(s: seq<T>, key: T -> K): seq<T>
    decreases |s|
  {
    if s == [] then []
    else
      var r := FirstByKey(s[..|s| - 1], key);
      if key(s[|s| - 1]) in Keys(r, key) then r else r + [s[|s| - 1]]
  }

  lemma FirstByKeyAppend<T, K>(s: seq<T>, x: T, key: T -> K)
    ensures FirstByKey(s + [x], key) ==
      if key(x) in Keys(FirstByKey(s, key), key) then FirstByKey(s, key) else FirstByKey(s, key) + [x]
  {
    assert (s + [x])[..|s|] == s;
  }

  lemma KeysAppend<T, K>(s: seq<T>, x: T, f: T -> K)
    ensures Keys(s + [x], f) == Keys(s, f) + {f(x)}
  {
    assert (s + [x])[..|s|] == s;
  }

  /** First-occurrence dedup keeps distinct keys, keeps the order of `s`,
      and loses no key of `s`. */
  lemma {:induction false} FirstByKeySpec<T, K>(s: seq<T>, key: T -> K)
    ensures DistinctBy(FirstByKey(s, key), key)
    ensures IsSubsequence(FirstByKey(s, key), s)
    ensures Keys(FirstByKey(s, key), key) == Keys(s, key)
    decreases |s|
  {
    if s != [] {
      var s0, x := s[..|s| - 1], s[|s| - 1];
      var r := FirstByKey(s0, key);
      FirstByKeySpec(s0, key);
      assert s == s0 + [x];
      KeysAppend(s0, x, key);
      KeysAppend(r, x, key);
      if key(x) in Keys(r, key) {
        SubsequenceExtend(r, s0, x);
      } else {
        KeysMember(r, key, key(x));
        DistinctByAppend(r, x, key);
        SubsequenceAppendBoth(r, s0, x);
      }
    }
  }

  /** Mapping and filtering, dropping repeated keys, then keeping the
      first `n`: the result has distinct keys, keeps the order, keeps
      what every mapped element has, and when shorter than `n` has every
      key of the mapped elements. */
  lemma DedupTakeSpec<A, B, K>(s: seq<A>, f: A -> Option<B>, key: B -> K, n: nat, P: B -> bool)
    requires forall j :: 0 <= j < |s| && f(s[j]).Some? ==> P(f(s[j]).value)
    ensures var out := Take(FirstByKey(FilterMap(s, f), key), n);
      && |out| <= n && |out| <= |s|
      && DistinctBy(out, key)
      && IsSubsequence(out, FilterMap(s, f))
      && (forall i :: 0 <= i < |out| ==> P(out[i]))
      && (|out| < n ==> Keys(out, key) == Keys(FilterMap(s, f), key))
  {
    var mapped := FilterMap(s, f);
    var deduped := FirstByKey(mapped, key);
    var out := Take(deduped, n);
    FirstByKeySpec(mapped, key);
    assert out == deduped[..|out|];
    SubsequencePrefix(deduped, mapped, |out|);
    FilterMapKeeps(s, f, P);
    SubsequenceKeeps(out, mapped, P);
    SubsequenceKeeps(deduped, mapped, P);
    if |out| < n {
      assert out == deduped;
    }
  }

  /** Once the dedup of a prefix has `n` elements, later elements do not
      change the first `n`. */
  lemma DedupTakePrefix<A, B, K>(s: seq<A>, k: nat, f: A -> Option<B>, key: B -> K, n: nat)
    requires k <= |s| && |FirstByKey(FilterMap(s[..k], f), key)| == n
    ensures Take(FirstByKey(FilterMap(s, f), key), n) == FirstByKey(FilterMap(s[..k], f), key)
  {
    assert s == s[..k] + s[k..];
    FilterMapAppend(s[..k], s[k..], f);
    FirstByKeyPrefix(FilterMap(s[..k], f), FilterMap(s[k..], f), key);
  }

  /** Dedup of a prefix is a prefix of the dedup. */
  lemma {:induction false} FirstByKeyPrefix<T, K>(a: seq<T>, b: seq<T>, key: T -> K)
    ensures |FirstByKey(a, key)| <= |FirstByKey(a + b, key)|
    ensures FirstByKey(a + b, key)[..|FirstByKey(a, key)|] == FirstByKey(a, key)
    decreases |b|
  {
    if b == [] {
      assert a + b == a;
    } else {
      var b0, x := b[..|b| - 1], b[|b| - 1];
      FirstByKeyPrefix(a, b0, key);
      assert a + b == (a + b0) + [x];
      FirstByKeyAppend(a + b0, x, key);
    }
  }

  /** Keys never increase from left to right (what `sort(reverse=True)` gives). */
  predicate NonIncreasing<T>(s: seq<T>, key: T -> int) {
    forall i, j :: 0 <= i < j < |s| ==> key(s[i]) >= key(s[j])
  }

  /** Insert `x` into `s` after the trailing elements whose key is smaller
      than `key(x)`, that is after every element of a non-increasing `s`
      whose key is at least `key(x)`; equal keys keep their arrival order. */
  function InsertDesc<T>(s: seq<T>, x: T, key: T -> int): (r: seq<T>)
    ensures |r| == |s| + 1
  {
    if s == [] then [x]
    else if key(s[|s| - 1]) >= key(x) then s + [x]
    else InsertDesc(s[..|s| - 1], x, key) + [s[|s| - 1]]
  }

  lemma {:induction false} InsertDescPermutes<T>(s: seq<T>, x: T, key: T -> int)
    ensures multiset(InsertDesc(s, x, key)) == multiset(s) + multiset{x}
  {
    if s != [] && key(s[|s| - 1]) < key(x) {
      var s0 := s[..|s| - 1];
      assert s == s0 + [s[|s| - 1]];
      InsertDescPermutes(s0, x, key);
    }
  }

  lemma NonIncreasingAppend<T>(s: seq<T>, y: T, key: T -> int)
    requires NonIncreasing(s, key)
    requires forall i :: 0 <= i < |s| ==> key(s[i]) >= key(y)
    ensures NonIncreasing(s + [y], key)
  {
    var t := s + [y];
    assert forall i :: 0 <= i < |s| ==> t[i] == s[i];
  }

  lemma {:induction false} InsertDescSorted<T>(s: seq<T>, x: T, key: T -> int)
    requires NonIncreasing(s, key)
    ensures NonIncreasing(InsertDesc(s, x, key), key)
  {
    if s == [] {
    } else if key(s[|s| - 1]) >= key(x) {
      NonIncreasingAppend(s, x, key);
    } else {
      var last := s[|s| - 1];
      var s0 := s[..|s| - 1];
      var r0 := InsertDesc(s0, x, key);
      assert s == s0 + [last];
      assert NonIncreasing(s0, key);
      InsertDescSorted(s0, x, key);
      InsertDescPermutes(s0, x, key);
      forall i | 0 <= i < |r0| ensures key(r0[i]) >= key(last) {
        assert r0[i] in multiset(r0);
        if r0[i] != x {
          assert r0[i] in multiset(s0);
          var j :| 0 <= j < |s0| && s0[j] == r0[i];
          assert s[j] == s0[j];
        }
      }
      NonIncreasingAppend(r0, last, key);
    }
  }

  /** Python's stable `s.sort(key=key, reverse=True)`, as insertion sort. */
  function SortDesc<T>(s: seq<T>, key: T -> int): (r: seq<T>)
    ensures multiset(r) == multiset(s)
    ensures |r| == |s|
    ensures NonIncreasing(r, key)
  {
    if s == [] then []
    else
      var s0 := s[..|s| - 1];
      var r0 := SortDesc(s0, key);
      InsertDescPermutes(r0, s[|s| - 1], key);
      InsertDescSorted(r0, s[|s| - 1], key);
      assert s == s0 + [s[|s| - 1]];
      InsertDesc(r0, s[|s| - 1], key)
  }

  /** The elements whose key equals `v`. */
  function KeyIs<T>(key: T -> int, v: int): T -> bool {
    y => key(y) == v
  }

  lemma FilterSingleton<T>(x: T, keep: T -> bool)
    ensures Filter([x], keep) == if keep(x) then [x] else []
  {
    assert [x][..0] == [];
  }

  lemma {:induction false} InsertDescStable<T>(s: seq<T>, x: T, key: T -> int, v: int)
    ensures Filter(InsertDesc(s, x, key), KeyIs(key, v))
         == Filter(s, KeyIs(key, v)) + (if key(x) == v then [x] else [])
  {
    var p := KeyIs(key, v);
    FilterSingleton(x, p);
    if s == [] {
    } else if key(s[|s| - 1]) >= key(x) {
      FilterAppend(s, [x], p);
    } else {
      var last := s[|s| - 1];
      var s0 := s[..|s| - 1];
      assert s == s0 + [last];
      var i0 := InsertDesc(s0, x, key);
      assert InsertDesc(s, x, key) == i0 + [last];
      InsertDescStable(s0, x, key, v);
      FilterAppend(i0, [last], p);
      FilterAppend(s0, [last], p);
      FilterSingleton(last, p);
      var X := if key(x) == v then [x] else [];
      var L := if key(last) == v then [last] else [];
      var f0 := Filter(s0, p);
      assert Filter(InsertDesc(s, x, key), p) == f0 + X + L;
      assert Filter(s, p) == f0 + L;
      if X == [] {
        assert f0 + X == f0;
        assert f0 + L + X == f0 + L;
      } else {
        assert L == [];
        assert f0 + X + L == f0 + X;
        assert f0 + L == f0;
      }
    }
  }

  /** Sorting is stable: among elements with equal keys the input order
      is kept. */
  lemma {:induction false} SortDescStable<T>(s: seq<T>, key: T -> int, v: int)
    ensures Filter(SortDesc(s, key), KeyIs(key, v)) == Filter(s, KeyIs(key, v))
  {
    if s != [] {
      var s0 := s[..|s| - 1];
      assert s == s0 + [s[|s| - 1]];
      SortDescStable(s0, key, v);
      InsertDescStable(SortDesc(s0, key), s[|s| - 1], key, v);
      FilterAppend(s0, [s[|s| - 1]], KeyIs(key, v));
    }
  }

  lemma NonIncreasingPrefix<T>(s: seq<T>, n: nat, key: T -> int)
    requires NonIncreasing(s, key) && n <= |s|
    ensures NonIncreasing(s[..n], key)
  {
  }

  /** Membership in a filtered sequence: kept exactly when present and
      accepted. */
  lemma {:induction false} FilterMember<T>(s: seq<T>, keep: T -> bool, x: T)
    ensures x in Filter(s, keep) <==> x in s && keep(x)
    decreases |s|
  {
    if s != [] {
      var s0 := s[..|s| - 1];
      assert s == s0 + [s[|s| - 1]];
      FilterMember(s0, keep, x);
    }
  }

  /** A property every element of `b` has carries over to any rearrangement
      of `b`. */
  lemma MultisetKeeps<T>(a: seq<T>, b: seq<T>, P: T -> bool)
    requires multiset(a) == multiset(b)
    requires forall j :: 0 <= j < |b| ==> P(b[j])
    ensures forall i :: 0 <= i < |a| ==> P(a[i])
  {
    forall i | 0 <= i < |a|
      ensures P(a[i])
    {
      assert a[i] in multiset(a);
      assert a[i] in b;
    }
  }

  /** Python `{key(x): x for x in s if keep(x)}`: later elements overwrite
      earlier ones with the same key. */
  function IndexBy<T, K>(s: seq<T>, keep: T -> bool, key: T -> K): map<K, T>
    decreases |s|
  {
    if s == [] then map[]
    else
      var m := IndexBy(s[..|s| - 1], keep, key);
      var x := s[|s| - 1];
      if keep(x) then m[key(x) := x] else m
  }

  /** `k` is indexed exactly when some kept element has that key, and then
      it maps to the last such element. */
  lemma {:induction false} IndexByAt<T, K>(s: seq<T>, keep: T -> bool, key: T -> K, k: K)
    ensures k in IndexBy(s, keep, key) <==> exists i :: 0 <= i < |s| && keep(s[i]) && key(s[i]) == k
    ensures k in IndexBy(s, keep, key) ==>
      exists i :: 0 <= i < |s| && keep(s[i]) && key(s[i]) == k && IndexBy(s, keep, key)[k] == s[i]
        && forall j :: i < j < |s| ==> !(keep(s[j]) && key(s[j]) == k)
    decreases |s|
  {
    if s != [] {
      var s0 := s[..|s| - 1];
      var x := s[|s| - 1];
      IndexByAt(s0, keep, key, k);
      assert forall i :: 0 <= i < |s0| ==> s0[i] == s[i];
      if keep(x) && key(x) == k {
        assert IndexBy(s, keep, key)[k] == s[|s| - 1];
      } else if k in IndexBy(s0, keep, key) {
        var i :| 0 <= i < |s0| && keep(s0[i]) && key(s0[i]) == k && IndexBy(s0, keep, key)[k] == s0[i]
          && forall j :: i < j < |s0| ==> !(keep(s0[j]) && key(s0[j]) == k);
        assert IndexBy(s, keep, key)[k] == s[i];
      }
    }
  }

  /** Every element of a `FilterMap` output is the image of some input. */
  lemma {:induction false} FilterMapMember<A, B>(s: seq<A>, f: A -> Option<B>, y: B)
    requires y in FilterMap(s, f)
    ensures exists j :: 0 <= j < |s| && f(s[j]) == Some(y)
    decreases |s|
  {
    var s0 := s[..|s| - 1];
    assert s == s0 + [s[|s| - 1]];
    FilterMapAppend(s0, [s[|s| - 1]], f);
    if y in FilterMap(s0, f) {
      FilterMapMember(s0, f, y);
      var j :| 0 <= j < |s0| && f(s0[j]) == Some(y);
      assert s[j] == s0[j];
    } else {
      assert FilterMap([s[|s| - 1]], f) == FilterMap([s[|s| - 1]][..0], f) + (if f(s[|s| - 1]).Some? then [f(s[|s| - 1]).value] else []);
    }
  }

  /** The first `n` elements of a sequence form a sub-multiset of it. */
  lemma TakeSubMultiset<T>(s: seq<T>, n: int)
    ensures multiset(Take(s, n)) <= multiset(s)
  {
    var r := Take(s, n);
    assert s == r + s[|r|..];
  }
}
