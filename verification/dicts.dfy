/** Python's insertion-ordered `dict`, as an association list with distinct
    keys. Assigning to an existing key replaces its value in place; a new key
    is appended. */
module Dicts {
  import opened Wrappers

  type Dict<K, V> = seq<(K, V)>

  predicate Distinct<K(==)>(s: seq<K>) {
    forall i, j :: 0 <= i < j < |s| ==> s[i] != s[j]
  }

  /** `list(d.keys())`. */
  function Keys<K, V>(d: Dict<K, V>): (r: seq<K>)
    ensures |r| == |d|
    ensures forall i :: 0 <= i < |d| ==> r[i] == d[i].0
    decreases |d|
  {
    if |d| == 0 then [] else [d[0].0] + Keys(d[1..])
  }

  predicate DistinctKeys<K(==), V>(d: Dict<K, V>) {
    Distinct(Keys(d))
  }

  /** `d.get(k)`. */
  function Get<K(==), V>(d: Dict<K, V>, k: K): (r: Option<V>)
    ensures r.Some? <==> k in Keys(d)
    decreases |d|
  {
    if |d| == 0 then None
    else if d[0].0 == k then Some(d[0].1)
    else Get(d[1..], k)
  }

  /** In a dict with distinct keys, every entry is what `Get` finds. */
  lemma GetEntry<K, V>(d: Dict<K, V>, i: nat)
    requires DistinctKeys(d) && i < |d|
    ensures Get(d, d[i].0) == Some(d[i].1)
    decreases |d|
  {
    if i > 0 {
      assert d[1..][i - 1] == d[i];
      assert Keys(d[1..]) == Keys(d)[1..];
      GetEntry(d[1..], i - 1);
    }
  }

  /** `d[k] = v`. */
  function Put<K(==,!new), V>(d: Dict<K, V>, k: K, v: V): (r: Dict<K, V>)
    ensures Keys(r) == if k in Keys(d) then Keys(d) else Keys(d) + [k]
    ensures Get(r, k) == Some(v)
    ensures forall k' :: k' != k ==> Get(r, k') == Get(d, k')
    decreases |d|
  {
    if |d| == 0 then [(k, v)]
    else if d[0].0 == k then [(k, v)] + d[1..]
    else [d[0]] + Put(d[1..], k, v)
  }

  /** Assignment keeps the keys distinct. */
  lemma PutDistinct<K(!new), V>(d: Dict<K, V>, k: K, v: V)
    requires DistinctKeys(d)
    ensures DistinctKeys(Put(d, k, v))
  {
    var ks := Keys(d);
    if k !in ks {
      var ks' := ks + [k];
      forall i, j | 0 <= i < j < |ks'|
        ensures ks'[i] != ks'[j]
      {
        if j == |ks| {
          assert ks'[i] == ks[i];
        }
      }
    }
  }

  // ---------------------------------------------------------------------------
  // Building a dict in a loop
  // ---------------------------------------------------------------------------

  /** `for x in xs: if keep(x): d[key(x)] = val(x)`, from an empty dict. */
  function Collect<T, K(==,!new), V>(xs: seq<T>, keep: T -> bool, key: T -> K, val: T -> V): Dict<K, V>
    decreases |xs|
  {
    if |xs| == 0 then []
    else
      var d := Collect(xs[..|xs| - 1], keep, key, val);
      var x := xs[|xs| - 1];
      if keep(x) then Put(d, key(x), val(x)) else d
  }

  /** Element `j` is kept and no later kept element has the same key. */
  predicate IsLastWith<T, K(==)>(xs: seq<T>, keep: T -> bool, key: T -> K, j: int) {
    0 <= j < |xs| && keep(xs[j])
    && forall j' :: j < j' < |xs| ==> !(keep(xs[j']) && key(xs[j']) == key(xs[j]))
  }

  lemma {:induction false} CollectDistinct<T, K(!new), V>(xs: seq<T>, keep: T -> bool, key: T -> K, val: T -> V)
    ensures DistinctKeys(Collect(xs, keep, key, val))
    decreases |xs|
  {
    if |xs| > 0 {
      var x := xs[|xs| - 1];
      CollectDistinct(xs[..|xs| - 1], keep, key, val);
      PutDistinct(Collect(xs[..|xs| - 1], keep, key, val), key(x), val(x));
    }
  }

  /** The keys are exactly the keys of the kept elements. */
  lemma {:induction false} CollectKeys<T, K(!new), V>(xs: seq<T>, keep: T -> bool, key: T -> K, val: T -> V, k: K)
    ensures k in Keys(Collect(xs, keep, key, val)) <==>
            exists j :: 0 <= j < |xs| && keep(xs[j]) && key(xs[j]) == k
    decreases |xs|
  {
    if |xs| > 0 {
      var front := xs[..|xs| - 1];
      CollectKeys(front, keep, key, val, k);
      assert forall j :: 0 <= j < |front| ==> front[j] == xs[j];
      if exists j :: 0 <= j < |xs| && keep(xs[j]) && key(xs[j]) == k {
        var j :| 0 <= j < |xs| && keep(xs[j]) && key(xs[j]) == k;
        if j < |front| {
          assert front[j] == xs[j];
        }
      }
    }
  }

  /** The value under a key comes from the last kept element with that key. */
  lemma {:induction false} CollectLast<T, K(!new), V>(xs: seq<T>, keep: T -> bool, key: T -> K, val: T -> V, j: int)
    requires IsLastWith(xs, keep, key, j)
    ensures Get(Collect(xs, keep, key, val), key(xs[j])) == Some(val(xs[j]))
    decreases |xs|
  {
    var front := xs[..|xs| - 1];
    if j < |front| {
      assert IsLastWith(front, keep, key, j) by {
        assert forall k :: 0 <= k < |front| ==> front[k] == xs[k];
      }
      CollectLast(front, keep, key, val, j);
    }
  }

  /** The last kept element sharing the key of a kept element. */
  lemma LastWith<T, K>(xs: seq<T>, keep: T -> bool, key: T -> K, j: int) returns (k: int)
    requires 0 <= j < |xs| && keep(xs[j])
    ensures j <= k && IsLastWith(xs, keep, key, k) && key(xs[k]) == key(xs[j])
    decreases |xs| - j
  {
    if IsLastWith(xs, keep, key, j) {
      k := j;
    } else {
      var j' :| j < j' < |xs| && keep(xs[j']) && key(xs[j']) == key(xs[j]);
      k := LastWith(xs, keep, key, j');
    }
  }

  /** Every entry is the value of the last kept element with its key. */
  lemma CollectValue<T, K(!new), V>(xs: seq<T>, keep: T -> bool, key: T -> K, val: T -> V, k: K)
    requires k in Keys(Collect(xs, keep, key, val))
    ensures exists j :: IsLastWith(xs, keep, key, j) && key(xs[j]) == k
                        && Get(Collect(xs, keep, key, val), k) == Some(val(xs[j]))
  {
    CollectKeys(xs, keep, key, val, k);
    var i :| 0 <= i < |xs| && keep(xs[i]) && key(xs[i]) == k;
    var j := LastWith(xs, keep, key, i);
    CollectLast(xs, keep, key, val, j);
  }

  /** Nothing kept, nothing collected; and the converse. */
  lemma CollectEmpty<T, K(!new), V>(xs: seq<T>, keep: T -> bool, key: T -> K, val: T -> V)
    ensures |Collect(xs, keep, key, val)| == 0 <==> forall j :: 0 <= j < |xs| ==> !keep(xs[j])
  {
    var r := Collect(xs, keep, key, val);
    if |r| > 0 {
      assert r[0].0 in Keys(r);
      CollectKeys(xs, keep, key, val, r[0].0);
    }
    if exists j :: 0 <= j < |xs| && keep(xs[j]) {
      var j :| 0 <= j < |xs| && keep(xs[j]);
      CollectKeys(xs, keep, key, val, key(xs[j]));
    }
  }
}
