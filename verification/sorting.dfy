/** Sorting as `ngram.py` and `languages.py` use it: Python's stable `list.sort(key=..., reverse=True)`
    by an integer key, and `sorted(set(xs))` over strings, whose order is the
    lexicographic order of code points. */
module Sorting {

  // ---------------------------------------------------------------------------
  // Stable sort by descending integer key
  // ---------------------------------------------------------------------------

  predicate SortedDesc<T>(xs: seq<T>, key: T -> int) {
    forall i, j :: 0 <= i < j < |xs| ==> key(xs[i]) >= key(xs[j])
  }

  /** The elements of `xs` whose key is `k`, in their original order. Two
      sequences with the same `FilterKey` for every `k` list equal-key elements
      in the same relative order. */
  function FilterKey<T>(xs: seq<T>, key: T -> int, k: int): seq<T>
    decreases |xs|
  {
    if |xs| == 0 then []
    else (if key(xs[0]) == k then [xs[0]] else []) + FilterKey(xs[1..], key, k)
  }

  lemma {:induction false} FilterKeyAppend<T>(xs: seq<T>, ys: seq<T>, key: T -> int, k: int)
    ensures FilterKey(xs + ys, key, k) == FilterKey(xs, key, k) + FilterKey(ys, key, k)
    decreases |xs|
  {
    if |xs| > 0 {
      assert (xs + ys)[1..] == xs[1..] + ys;
      FilterKeyAppend(xs[1..], ys, key, k);
    } else {
      assert xs + ys == ys;
    }
  }

  /** Inserts `x` in front of the first element whose key is not larger, so
      that `x` precedes the elements of equal key that follow it in the input. */
  function Insert<T(==)>(x: T, ys: seq<T>, key: T -> int): (r: seq<T>)
    requires SortedDesc(ys, key)
    ensures SortedDesc(r, key)
    ensures multiset(r) == multiset(ys) + multiset{x}
    ensures forall k :: FilterKey(r, key, k) == FilterKey([x] + ys, key, k)
    decreases |ys|
  {
    if |ys| == 0 || key(ys[0]) <= key(x) then [x] + ys
    else
      var t := Insert(x, ys[1..], key);
      InsertStep(x, ys, t, key);
      [ys[0]] + t
  }

  /** One step of `Insert` past a head with a larger key. */
  lemma InsertStep<T>(x: T, ys: seq<T>, t: seq<T>, key: T -> int)
    requires |ys| > 0 && SortedDesc(ys, key) && key(ys[0]) > key(x)
    requires SortedDesc(t, key)
    requires multiset(t) == multiset(ys[1..]) + multiset{x}
    requires forall k :: FilterKey(t, key, k) == FilterKey([x] + ys[1..], key, k)
    ensures SortedDesc([ys[0]] + t, key)
    ensures multiset([ys[0]] + t) == multiset(ys) + multiset{x}
    ensures forall k :: FilterKey([ys[0]] + t, key, k) == FilterKey([x] + ys, key, k)
  {
    assert ys == [ys[0]] + ys[1..];
    InsertStepSorted(x, ys, t, key);
    forall k
      ensures FilterKey([ys[0]] + t, key, k) == FilterKey([x] + ys, key, k)
    {
      InsertStepFilter(x, ys, t, key, k);
    }
  }

  lemma InsertStepSorted<T>(x: T, ys: seq<T>, t: seq<T>, key: T -> int)
    requires |ys| > 0 && SortedDesc(ys, key) && key(ys[0]) > key(x)
    requires SortedDesc(t, key)
    requires multiset(t) == multiset(ys[1..]) + multiset{x}
    ensures SortedDesc([ys[0]] + t, key)
  {
    var r := [ys[0]] + t;
    forall i, j | 0 <= i < j < |r|
      ensures key(r[i]) >= key(r[j])
    {
      if i == 0 {
        assert r[j] == t[j - 1];
        assert t[j - 1] in multiset(t);
        if t[j - 1] != x {
          assert t[j - 1] in multiset(ys[1..]);
          var m :| 0 <= m < |ys[1..]| && ys[1..][m] == t[j - 1];
          assert ys[m + 1] == t[j - 1];
        }
      } else {
        assert r[i] == t[i - 1] && r[j] == t[j - 1];
      }
    }
  }

  lemma InsertStepFilter<T>(x: T, ys: seq<T>, t: seq<T>, key: T -> int, k: int)
    requires |ys| > 0 && key(ys[0]) > key(x)
    requires FilterKey(t, key, k) == FilterKey([x] + ys[1..], key, k)
    ensures FilterKey([ys[0]] + t, key, k) == FilterKey([x] + ys, key, k)
  {
    assert ([ys[0]] + t)[1..] == t;
    assert ([x] + ys)[1..] == ys;
    assert ([x] + ys[1..])[1..] == ys[1..];
    assert ys[1..] == ys[1..];
  }

  /** Stable insertion sort by descending key: equal keys keep input order. */
  function SortDesc<T(==)>(xs: seq<T>, key: T -> int): (r: seq<T>)
    ensures SortedDesc(r, key)
    ensures multiset(r) == multiset(xs)
    ensures forall k :: FilterKey(r, key, k) == FilterKey(xs, key, k)
    decreases |xs|
  {
    if |xs| == 0 then []
    else
      var rest := SortDesc(xs[1..], key);
      var r := Insert(xs[0], rest, key);
      SortStep(xs, rest, r, key);
      r
  }

  /** Inserting the head into the sorted tail keeps the head's elements and
      the order of equal keys. */
  lemma SortStep<T>(xs: seq<T>, rest: seq<T>, r: seq<T>, key: T -> int)
    requires |xs| > 0
    requires multiset(rest) == multiset(xs[1..])
    requires forall k :: FilterKey(rest, key, k) == FilterKey(xs[1..], key, k)
    requires multiset(r) == multiset(rest) + multiset{xs[0]}
    requires forall k :: FilterKey(r, key, k) == FilterKey([xs[0]] + rest, key, k)
    ensures multiset(r) == multiset(xs)
    ensures forall k :: FilterKey(r, key, k) == FilterKey(xs, key, k)
  {
    assert xs == [xs[0]] + xs[1..];
    forall k
      ensures FilterKey(r, key, k) == FilterKey(xs, key, k)
    {
      assert ([xs[0]] + rest)[1..] == rest;
      assert xs[1..] == xs[1..];
    }
  }

  // ---------------------------------------------------------------------------
  // Strings: code-point lexicographic order and sorted(set(xs))
  // ---------------------------------------------------------------------------

  /** Python's `a < b` on strings. */
  predicate Less(a: string, b: string)
    decreases |a|
  {
    if |b| == 0 then false
    else if |a| == 0 then true
    else if a[0] != b[0] then a[0] < b[0]
    else Less(a[1..], b[1..])
  }

  lemma LessIrreflexive(a: string)
    ensures !Less(a, a)
  {
  }

  lemma LessTransitive(a: string, b: string, c: string)
    requires Less(a, b) && Less(b, c)
    ensures Less(a, c)
    decreases |a|
  {
    if |a| > 0 && a[0] == b[0] && b[0] == c[0] {
      LessTransitive(a[1..], b[1..], c[1..]);
    }
  }

  lemma LessTotal(a: string, b: string)
    requires a != b
    ensures Less(a, b) || Less(b, a)
    decreases |a|
  {
    if |a| > 0 && |b| > 0 && a[0] == b[0] {
      assert a == [a[0]] + a[1..] && b == [b[0]] + b[1..];
      LessTotal(a[1..], b[1..]);
    }
  }

  predicate StrictlyAscending(xs: seq<string>) {
    forall i, j :: 0 <= i < j < |xs| ==> Less(xs[i], xs[j])
  }

  /** Inserts `x` into a strictly ascending list unless it is already there. */
  function InsertUnique(x: string, ys: seq<string>): (r: seq<string>)
    requires StrictlyAscending(ys)
    ensures StrictlyAscending(r)
    ensures forall s :: s in r <==> s == x || s in ys
    decreases |ys|
  {
    if |ys| == 0 then [x]
    else if x == ys[0] then ys
    else if Less(x, ys[0]) then
      assert forall j :: 0 < j < |ys| ==> Less(x, ys[j]) by {
        forall j | 0 < j < |ys|
          ensures Less(x, ys[j])
        {
          LessTransitive(x, ys[0], ys[j]);
        }
      }
      [x] + ys
    else
      LessTotal(x, ys[0]);
      var t := InsertUnique(x, ys[1..]);
      var r := [ys[0]] + t;
      assert forall j :: 0 < j < |r| ==> Less(ys[0], r[j]) by {
        forall j | 0 < j < |r|
          ensures Less(ys[0], r[j])
        {
          assert r[j] in t;
        }
      }
      r
  }

  /** `sorted(set(xs))`. */
  function SortedSet(xs: seq<string>): (r: seq<string>)
    ensures StrictlyAscending(r)
    ensures forall s :: s in r <==> s in xs
    decreases |xs|
  {
    if |xs| == 0 then [] else InsertUnique(xs[0], SortedSet(xs[1..]))
  }

  /** A strictly ascending list has no duplicates. */
  lemma AscendingDistinct(xs: seq<string>)
    requires StrictlyAscending(xs)
    ensures forall i, j :: 0 <= i < j < |xs| ==> xs[i] != xs[j]
  {
    forall i, j | 0 <= i < j < |xs|
      ensures xs[i] != xs[j]
    {
      LessIrreflexive(xs[i]);
    }
  }
}
