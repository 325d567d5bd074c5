/** Sequence helpers shared by several modules: Python's `xs[:k]` slice (which
    counts from the end when `k` is negative), order-preserving subsequences
    and sums of reals. */
module Seqs {
  import opened Wrappers

  function Min(a: int, b: int): int {
    if a <= b then a else b
  }

  function Max(a: int, b: int): int {
    if a >= b then a else b
  }

  /** Python's `xs[:k]`, also pandas' `head(k)`. */
  function PyPrefix<T>(xs: seq<T>, k: int): (r: seq<T>)
    ensures k >= 0 ==> |r| == Min(k, |xs|)
    ensures k < 0 ==> |r| == Max(0, |xs| + k)
    ensures r <= xs
  {
    if k >= 0 then (if k <= |xs| then xs[..k] else xs)
    else if |xs| + k >= 0 then xs[..|xs| + k]
    else []
  }

  /** `xs` can be obtained from `ys` by deleting elements. */
  predicate IsSubsequence<T(==)>(xs: seq<T>, ys: seq<T>)
    decreases |ys|
  {
    if |xs| == 0 then true
    else if |ys| == 0 then false
    else if xs[0] == ys[0] then IsSubsequence(xs[1..], ys[1..])
    else IsSubsequence(xs, ys[1..])
  }

  function Sum(xs: seq<real>): real
    decreases |xs|
  {
    if |xs| == 0 then 0.0 else xs[0] + Sum(xs[1..])
  }

  lemma SumAppend(xs: seq<real>, ys: seq<real>)
    ensures Sum(xs + ys) == Sum(xs) + Sum(ys)
    decreases |xs|
  {
    if |xs| > 0 {
      assert (xs + ys)[1..] == xs[1..] + ys;
      SumAppend(xs[1..], ys);
    } else {
      assert xs + ys == ys;
    }
  }

  /** A sum of non-negative terms is at least the sum of any prefix. */
  lemma SumPrefix(xs: seq<real>, k: nat)
    requires k <= |xs|
    requires forall i :: 0 <= i < |xs| ==> xs[i] >= 0.0
    ensures Sum(xs[..k]) <= Sum(xs)
  {
    assert xs == xs[..k] + xs[k..];
    SumAppend(xs[..k], xs[k..]);
    SumNonNegative(xs[k..]);
  }

  lemma SumNonNegative(xs: seq<real>)
    requires forall i :: 0 <= i < |xs| ==> xs[i] >= 0.0
    ensures Sum(xs) >= 0.0
    decreases |xs|
  {
    if |xs| > 0 {
      SumNonNegative(xs[1..]);
    }
  }

  /** A positive sum has a positive term. */
  lemma {:induction false} PositiveTerm(xs: seq<real>)
    requires Sum(xs) > 0.0
    ensures exists i :: 0 <= i < |xs| && xs[i] > 0.0
    decreases |xs|
  {
    if xs[0] <= 0.0 {
      PositiveTerm(xs[1..]);
      var i :| 0 <= i < |xs[1..]| && xs[1..][i] > 0.0;
      assert xs[i + 1] > 0.0;
    }
  }

  // ---------------------------------------------------------------------------
  // First match and filtering
  // ---------------------------------------------------------------------------

  /** `xs[j]` is the first element satisfying `p`. */
  predicate IsFirst<T>(xs: seq<T>, p: T -> bool, j: int) {
    0 <= j < |xs| && p(xs[j]) && forall j' :: 0 <= j' < j ==> !p(xs[j'])
  }

  function FirstFrom<T>(xs: seq<T>, p: T -> bool, i: nat): (r: Option<nat>)
    requires i <= |xs|
    requires forall j :: 0 <= j < i ==> !p(xs[j])
    ensures r.Some? ==> IsFirst(xs, p, r.value)
    ensures r.None? ==> forall j :: 0 <= j < |xs| ==> !p(xs[j])
    decreases |xs| - i
  {
    if i == |xs| then None
    else if p(xs[i]) then Some(i)
    else FirstFrom(xs, p, i + 1)
  }

  /** The index of the first element satisfying `p` (pandas' `iloc[0]` of a
      boolean selection), or `None`. */
  function First<T>(xs: seq<T>, p: T -> bool): (r: Option<nat>)
    ensures r.Some? ==> IsFirst(xs, p, r.value)
    ensures r.None? ==> forall j :: 0 <= j < |xs| ==> !p(xs[j])
  {
    FirstFrom(xs, p, 0)
  }

  /** The indices at or after `from` of the elements satisfying `p`, in
      increasing order, every such index included. */
  function Indices<T>(xs: seq<T>, p: T -> bool, from: nat): (r: seq<nat>)
    requires from <= |xs|
    ensures forall k :: 0 <= k < |r| ==> from <= r[k] < |xs| && p(xs[r[k]])
    ensures forall k, l :: 0 <= k < l < |r| ==> r[k] < r[l]
    ensures forall j :: from <= j < |xs| && p(xs[j]) ==> j in r
    decreases |xs| - from
  {
    if from == |xs| then []
    else
      var rest := Indices(xs, p, from + 1);
      if p(xs[from]) then [from] + rest else rest
  }

  /** No element before the first index satisfies `p`, and none between the
      first index and the second (or the end, when there is no second). */
  lemma IndicesGaps<T>(xs: seq<T>, p: T -> bool, r: seq<nat>)
    requires r == Indices(xs, p, 0) && |r| > 0
    ensures forall j :: 0 <= j < r[0] ==> !p(xs[j])
    ensures forall j :: r[0] < j < (if |r| > 1 then r[1] else |xs|) ==> !p(xs[j])
  {
    var next := if |r| > 1 then r[1] else |xs|;
    assert forall k :: 0 <= k < |r| ==> r[0] <= r[k];
    forall j | 0 <= j < r[0] ensures !p(xs[j]) {
      assert j !in r;
    }
    assert forall k :: 1 <= k < |r| ==> next <= r[k];
    forall j | r[0] < j < next ensures !p(xs[j]) {
      assert j !in r;
    }
  }

  /** The elements satisfying `p`, in order (a boolean selection). */
  function Filter<T>(xs: seq<T>, p: T -> bool): (r: seq<T>)
    ensures |r| <= |xs|
    ensures forall i :: 0 <= i < |r| ==> p(r[i])
    decreases |xs|
  {
    if |xs| == 0 then []
    else
      var rest := Filter(xs[1..], p);
      assert xs == [xs[0]] + xs[1..];
      if p(xs[0]) then [xs[0]] + rest else rest
  }

  /** A selection holds exactly the elements of the input that satisfy `p`,
      never more often than the input does. */
  lemma {:induction false} FilterMembers<T>(xs: seq<T>, p: T -> bool)
    ensures forall i :: 0 <= i < |Filter(xs, p)| ==> Filter(xs, p)[i] in xs
    ensures forall j :: 0 <= j < |xs| && p(xs[j]) ==> xs[j] in Filter(xs, p)
    ensures multiset(Filter(xs, p)) <= multiset(xs)
    decreases |xs|
  {
    if |xs| > 0 {
      FilterMembers(xs[1..], p);
      assert xs == [xs[0]] + xs[1..];
      forall j | 1 <= j < |xs| && p(xs[j]) ensures xs[j] in Filter(xs, p) {
        assert xs[1..][j - 1] == xs[j];
      }
    }
  }

  /** Filtering one more element at the end. */
  lemma {:induction false} FilterSnoc<T>(xs: seq<T>, x: T, p: T -> bool)
    ensures Filter(xs + [x], p) == Filter(xs, p) + (if p(x) then [x] else [])
    decreases |xs|
  {
    if |xs| > 0 {
      assert (xs + [x])[1..] == xs[1..] + [x];
      FilterSnoc(xs[1..], x, p);
    }
  }

  lemma {:induction false} FilterAppend<T>(xs: seq<T>, ys: seq<T>, p: T -> bool)
    ensures Filter(xs + ys, p) == Filter(xs, p) + Filter(ys, p)
    decreases |xs|
  {
    if |xs| > 0 {
      assert (xs + ys)[0] == xs[0];
      assert (xs + ys)[1..] == xs[1..] + ys;
      FilterAppend(xs[1..], ys, p);
      var head := if p(xs[0]) then [xs[0]] else [];
      assert head + (Filter(xs[1..], p) + Filter(ys, p)) == (head + Filter(xs[1..], p)) + Filter(ys, p);
    } else {
      assert xs + ys == ys;
    }
  }

  lemma {:induction false} FilterNone<T>(xs: seq<T>, p: T -> bool)
    requires forall i :: 0 <= i < |xs| ==> !p(xs[i])
    ensures Filter(xs, p) == []
    decreases |xs|
  {
    if |xs| > 0 {
      FilterNone(xs[1..], p);
    }
  }

  /** Reordering the input does not change how many elements are selected. */
  lemma {:induction false} FilterCountOfPermutation<T>(xs: seq<T>, ys: seq<T>, p: T -> bool)
    requires multiset(xs) == multiset(ys)
    ensures |Filter(xs, p)| == |Filter(ys, p)|
    decreases |xs|
  {
    if |xs| == 0 {
      assert |ys| == |multiset(ys)| == 0;
    } else {
      var x := xs[0];
      assert x in multiset(ys);
      var k :| 0 <= k < |ys| && ys[k] == x;
      var rest := ys[..k] + ys[k + 1..];
      RemoveAt(ys, k);
      assert xs == [x] + xs[1..];
      assert multiset(xs[1..]) == multiset(xs) - multiset{x};
      FilterCountOfPermutation(xs[1..], rest, p);
      FilterRemoveAt(ys, k, p);
    }
  }

  /** Removing the element at `k` removes one occurrence of it. */
  lemma RemoveAt<T>(ys: seq<T>, k: nat)
    requires k < |ys|
    ensures multiset(ys[..k] + ys[k + 1..]) == multiset(ys) - multiset{ys[k]}
  {
    assert ys == ys[..k] + [ys[k]] + ys[k + 1..];
  }

  /** Removing the element at `k` selects one element fewer when it passes. */
  lemma FilterRemoveAt<T>(ys: seq<T>, k: nat, p: T -> bool)
    requires k < |ys|
    ensures |Filter(ys, p)| == |Filter(ys[..k] + ys[k + 1..], p)| + (if p(ys[k]) then 1 else 0)
  {
    assert ys == ys[..k] + ([ys[k]] + ys[k + 1..]);
    FilterAppend(ys[..k], [ys[k]] + ys[k + 1..], p);
    FilterAppend(ys[..k], ys[k + 1..], p);
    assert ([ys[k]] + ys[k + 1..])[1..] == ys[k + 1..];
  }

  function Not<T>(p: T -> bool): T -> bool {
    x => !p(x)
  }

  /** The elements that pass and the elements that fail make up the input. */
  lemma {:induction false} FilterSplit<T>(xs: seq<T>, p: T -> bool)
    ensures multiset(Filter(xs, p)) + multiset(Filter(xs, Not(p))) == multiset(xs)
    decreases |xs|
  {
    if |xs| > 0 {
      FilterSplit(xs[1..], p);
      assert xs == [xs[0]] + xs[1..];
      assert Not(p)(xs[0]) == !p(xs[0]);
      if p(xs[0]) {
        assert Filter(xs, p) == [xs[0]] + Filter(xs[1..], p);
        assert Filter(xs, Not(p)) == Filter(xs[1..], Not(p));
      } else {
        assert Filter(xs, p) == Filter(xs[1..], p);
        assert Filter(xs, Not(p)) == [xs[0]] + Filter(xs[1..], Not(p));
      }
    }
  }

  /** A selection keeps the order of the input. */
  lemma {:induction false} FilterSubsequence<T>(xs: seq<T>, p: T -> bool)
    ensures IsSubsequence(Filter(xs, p), xs)
    decreases |xs|
  {
    if |xs| > 0 {
      FilterSubsequence(xs[1..], p);
      if p(xs[0]) {
        assert ([xs[0]] + Filter(xs[1..], p))[1..] == Filter(xs[1..], p);
      } else {
        SubsequenceOfTail(Filter(xs, p), xs);
      }
    }
  }

  /** A subsequence of the tail is a subsequence of the whole. */
  lemma {:induction false} SubsequenceOfTail<T>(ys: seq<T>, xs: seq<T>)
    requires |xs| > 0 && IsSubsequence(ys, xs[1..])
    ensures IsSubsequence(ys, xs)
    decreases |xs|, 0
  {
    if |ys| > 0 && ys[0] == xs[0] {
      SubsequenceDropHead(ys, xs[1..]);
    }
  }

  /** Dropping the first element of a subsequence keeps it a subsequence. */
  lemma {:induction false} SubsequenceDropHead<T>(ys: seq<T>, xs: seq<T>)
    requires |ys| > 0 && IsSubsequence(ys, xs)
    ensures IsSubsequence(ys[1..], xs)
    decreases |xs|, 1
  {
    if ys[0] == xs[0] {
      SubsequenceOfTail(ys[1..], xs);
    } else {
      SubsequenceDropHead(ys, xs[1..]);
      SubsequenceOfTail(ys[1..], xs);
    }
  }

  /** `[y for x in xs for y in f(x)]`. */
  function FlatMap<T, U>(xs: seq<T>, f: T -> seq<U>): seq<U>
    decreases |xs|
  {
    if |xs| == 0 then [] else f(xs[0]) + FlatMap(xs[1..], f)
  }

  /** When every `f(x)` has `k` elements, element `j` of `f(xs[i])` sits at
      position `k * i + j`. */
  lemma {:induction false} FlatMapAt<T, U>(xs: seq<T>, f: T -> seq<U>, k: nat, i: nat, j: nat)
    requires forall n :: 0 <= n < |xs| ==> |f(xs[n])| == k
    requires i < |xs| && j < k
    ensures |FlatMap(xs, f)| == k * |xs|
    ensures k * i + j < |FlatMap(xs, f)| && FlatMap(xs, f)[k * i + j] == f(xs[i])[j]
    decreases |xs|
  {
    FlatMapLength(xs, f, k);
    var head := f(xs[0]);
    var rest := FlatMap(xs[1..], f);
    assert FlatMap(xs, f) == head + rest;
    assert |head| == k;
    assert forall n :: 0 <= n < |xs[1..]| ==> xs[1..][n] == xs[n + 1];
    var n := k * i + j;
    if i == 0 {
      assert n == j;
    } else {
      FlatMapAt(xs[1..], f, k, i - 1, j);
      var m := k * (i - 1) + j;
      assert n == k + m by {
        assert k * i == k * (i - 1) + k;
      }
      assert rest[m] == f(xs[i])[j] by {
        assert xs[1..][i - 1] == xs[i];
      }
      assert k <= n < |head + rest|;
      assert (head + rest)[n] == rest[n - k];
    }
  }

  lemma {:induction false} FlatMapLength<T, U>(xs: seq<T>, f: T -> seq<U>, k: nat)
    requires forall n :: 0 <= n < |xs| ==> |f(xs[n])| == k
    ensures |FlatMap(xs, f)| == k * |xs|
    decreases |xs|
  {
    if |xs| > 0 {
      assert |f(xs[0])| == k;
      FlatMapLength(xs[1..], f, k);
      assert k * |xs| == k + k * (|xs| - 1);
    }
  }
}
