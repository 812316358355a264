/** `groupby(key)[value].sum()`: one group per distinct key, each carrying the
    sum of the values of the rows with that key. Every aggregation of the
    dashboard (by partner and code, by year, by label, by year and label) is
    an instance. */
module Grouping {
  import opened Seqs

  /** The keys carried by the rows of `xs`. */
  function KeySet<T, K>(xs: seq<T>, key: T -> K): set<K>
  {
    set i | 0 <= i < |xs| :: key(xs[i])
  }

  /** The distinct keys of `xs`, in order of first appearance. */
  function Keys<T, K(==)>(xs: seq<T>, key: T -> K): (ks: seq<K>)
    ensures Distinct(ks)
    ensures forall i :: 0 <= i < |xs| ==> key(xs[i]) in ks
    ensures (set k | k in ks) == KeySet(xs, key)
    decreases |xs|
  {
    if |xs| == 0 then []
    else
      var ks := Keys(xs[..|xs| - 1], key);
      var k := key(xs[|xs| - 1]);
      KeySetSnoc(xs, key);
      if k in ks then ks else ks + [k]
  }

  lemma KeySetSnoc<T, K>(xs: seq<T>, key: T -> K)
    requires |xs| > 0
    ensures KeySet(xs, key) == KeySet(xs[..|xs| - 1], key) + {key(xs[|xs| - 1])}
  {
    var front := xs[..|xs| - 1];
    forall k | k in KeySet(xs, key)
      ensures k in KeySet(front, key) + {key(xs[|xs| - 1])}
    {
      var i :| 0 <= i < |xs| && key(xs[i]) == k;
      if i < |xs| - 1 {
        assert key(front[i]) == k;
      }
    }
    forall k | k in KeySet(front, key)
      ensures k in KeySet(xs, key)
    {
      var i :| 0 <= i < |front| && key(front[i]) == k;
      assert key(xs[i]) == k;
    }
  }

  /** Sum of `val` over the rows of `xs` whose key is `k` (0 when there are none). */
  function SumBy<T, K(==)>(xs: seq<T>, key: T -> K, val: T -> real, k: K): real
    decreases |xs|
  {
    if |xs| == 0 then 0.0
    else
      var x := xs[|xs| - 1];
      SumBy(xs[..|xs| - 1], key, val, k) + (if key(x) == k then val(x) else 0.0)
  }

  /** Sum of `val` over the rows of `xs` whose key satisfies `keep`. */
  function SumWhere<T, K>(xs: seq<T>, key: T -> K, val: T -> real, keep: K -> bool): real
    decreases |xs|
  {
    if |xs| == 0 then 0.0
    else
      var x := xs[|xs| - 1];
      SumWhere(xs[..|xs| - 1], key, val, keep) + (if keep(key(x)) then val(x) else 0.0)
  }

  /** The predicate that keeps every key. */
  function Everything<K>(): K -> bool
  {
    _ => true
  }

  /** One output row of a group-by: a key and the sum of its rows. */
  datatype Group<K> = Group(key: K, total: real)

  /** The groups of `ks`, in that order, summing `val` over `xs`. */
  function Sums<T, K(==)>(ks: seq<K>, xs: seq<T>, key: T -> K, val: T -> real): (gs: seq<Group<K>>)
    ensures |gs| == |ks|
    ensures forall j :: 0 <= j < |gs| ==> gs[j] == Group(ks[j], SumBy(xs, key, val, ks[j]))
  {
    seq(|ks|, j requires 0 <= j < |ks| => Group(ks[j], SumBy(xs, key, val, ks[j])))
  }

  /** `xs.groupby(key)[val].sum()`: exactly one group per distinct key present
      in `xs`, each holding the sum of that key's values. */
  function GroupSums<T, K(==)>(xs: seq<T>, key: T -> K, val: T -> real): (gs: seq<Group<K>>)
    ensures forall i, j :: 0 <= i < j < |gs| ==> gs[i].key != gs[j].key
    ensures (set j | 0 <= j < |gs| :: gs[j].key) == KeySet(xs, key)
    ensures forall j :: 0 <= j < |gs| ==> gs[j].total == SumBy(xs, key, val, gs[j].key)
    ensures |gs| == |KeySet(xs, key)|
  {
    var ks := Keys(xs, key);
    KeysCount(xs, key);
    var gs := Sums(ks, xs, key, val);
    assert (set j | 0 <= j < |gs| :: gs[j].key) == (set k | k in ks) by {
      assert forall j :: 0 <= j < |gs| ==> gs[j].key == ks[j];
    }
    gs
  }

  /** Sum of the totals of the groups whose key satisfies `keep`. */
  function TotalWhere<K>(gs: seq<Group<K>>, keep: K -> bool): real
    decreases |gs|
  {
    if |gs| == 0 then 0.0
    else
      var g := gs[|gs| - 1];
      TotalWhere(gs[..|gs| - 1], keep) + (if keep(g.key) then g.total else 0.0)
  }

  /** A key no row carries sums to zero. */
  lemma {:induction false} SumByAbsent<T, K>(xs: seq<T>, key: T -> K, val: T -> real, k: K)
    requires forall i :: 0 <= i < |xs| ==> key(xs[i]) != k
    ensures SumBy(xs, key, val, k) == 0.0
  {
    if |xs| > 0 {
      SumByAbsent(xs[..|xs| - 1], key, val, k);
    }
  }

  /** Sums of non-negative values are non-negative. */
  lemma {:induction false} SumByNonNegative<T, K>(xs: seq<T>, key: T -> K, val: T -> real, k: K)
    requires forall i :: 0 <= i < |xs| ==> val(xs[i]) >= 0.0
    ensures SumBy(xs, key, val, k) >= 0.0
  {
    if |xs| > 0 {
      SumByNonNegative(xs[..|xs| - 1], key, val, k);
    }
  }

  /** The kept groups' totals, written per key. */
  function KeysTotalWhere<T, K(==)>(ks: seq<K>, xs: seq<T>, key: T -> K, val: T -> real, keep: K -> bool): real
    decreases |ks|
  {
    if |ks| == 0 then 0.0
    else
      var k := ks[|ks| - 1];
      KeysTotalWhere(ks[..|ks| - 1], xs, key, val, keep) + (if keep(k) then SumBy(xs, key, val, k) else 0.0)
  }

  lemma {:induction false} TotalWhereOfSums<T, K>(ks: seq<K>, xs: seq<T>, key: T -> K, val: T -> real, keep: K -> bool)
    ensures TotalWhere(Sums(ks, xs, key, val), keep) == KeysTotalWhere(ks, xs, key, val, keep)
  {
    if |ks| > 0 {
      var gs := Sums(ks, xs, key, val);
      assert gs[..|gs| - 1] == Sums(ks[..|ks| - 1], xs, key, val);
      TotalWhereOfSums(ks[..|ks| - 1], xs, key, val, keep);
    }
  }

  /** Adding one row to `xs` adds its value once, under its own key, when that
      key is listed once in `ks`. */
  lemma {:induction false} KeysTotalWhereSnoc<T, K>(ks: seq<K>, xs: seq<T>, x: T, key: T -> K, val: T -> real, keep: K -> bool)
    requires Distinct(ks)
    ensures KeysTotalWhere(ks, xs + [x], key, val, keep)
         == KeysTotalWhere(ks, xs, key, val, keep) + (if key(x) in ks && keep(key(x)) then val(x) else 0.0)
  {
    if |ks| > 0 {
      var k := ks[|ks| - 1];
      var front := ks[..|ks| - 1];
      assert (xs + [x])[..|xs + [x]| - 1] == xs;
      KeysTotalWhereSnoc(front, xs, x, key, val, keep);
      assert key(x) in ks <==> key(x) in front || key(x) == k;
      assert key(x) == k ==> key(x) !in front;
    }
  }

  lemma {:induction false} KeysTotalWhereCovers<T, K>(ks: seq<K>, xs: seq<T>, key: T -> K, val: T -> real, keep: K -> bool)
    requires Distinct(ks)
    requires forall i :: 0 <= i < |xs| ==> key(xs[i]) in ks
    ensures KeysTotalWhere(ks, xs, key, val, keep) == SumWhere(xs, key, val, keep)
  {
    if |xs| == 0 {
      KeysTotalWhereEmpty(ks, xs, key, val, keep);
    } else {
      var front := xs[..|xs| - 1];
      var x := xs[|xs| - 1];
      assert front + [x] == xs;
      KeysTotalWhereCovers(ks, front, key, val, keep);
      KeysTotalWhereSnoc(ks, front, x, key, val, keep);
    }
  }

  lemma {:induction false} KeysTotalWhereEmpty<T, K>(ks: seq<K>, xs: seq<T>, key: T -> K, val: T -> real, keep: K -> bool)
    requires |xs| == 0
    ensures KeysTotalWhere(ks, xs, key, val, keep) == 0.0
  {
    if |ks| > 0 {
      KeysTotalWhereEmpty(ks[..|ks| - 1], xs, key, val, keep);
    }
  }

  /** Grouping conserves sums: the totals of the groups whose key satisfies
      `keep` add up to the sum of the rows whose key satisfies `keep`. */
  lemma GroupSumsConserve<T, K>(xs: seq<T>, key: T -> K, val: T -> real, keep: K -> bool)
    ensures TotalWhere(GroupSums(xs, key, val), keep) == SumWhere(xs, key, val, keep)
  {
    var ks := Keys(xs, key);
    TotalWhereOfSums(ks, xs, key, val, keep);
    KeysTotalWhereCovers(ks, xs, key, val, keep);
  }

  /** There are exactly as many distinct keys as keys present. */
  lemma KeysCount<T, K>(xs: seq<T>, key: T -> K)
    ensures |Keys(xs, key)| == |KeySet(xs, key)|
  {
    DistinctCard(Keys(xs, key));
  }

  /** Sum of `val` over all of `xs`. */
  function Total<T>(xs: seq<T>, val: T -> real): real
    decreases |xs|
  {
    if |xs| == 0 then 0.0 else Total(xs[..|xs| - 1], val) + val(xs[|xs| - 1])
  }

  lemma {:induction false} SumWhereEverything<T, K>(xs: seq<T>, key: T -> K, val: T -> real)
    ensures SumWhere(xs, key, val, Everything()) == Total(xs, val)
  {
    if |xs| > 0 {
      SumWhereEverything(xs[..|xs| - 1], key, val);
    }
  }

  /** Per-key sums of all the distinct keys add up to the grand total. */
  lemma KeysTotalConserve<T, K>(xs: seq<T>, key: T -> K, val: T -> real)
    ensures KeysTotalWhere(Keys(xs, key), xs, key, val, Everything()) == Total(xs, val)
  {
    KeysTotalWhereCovers(Keys(xs, key), xs, key, val, Everything());
    SumWhereEverything(xs, key, val);
  }
}
