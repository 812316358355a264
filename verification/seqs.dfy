/** Sequence vocabulary shared by the whole model: an optional value,
    order-preserving sub-sequences, counting and filtering. */
module Seqs {

  /** A value that may be absent. */
  datatype Option<+T> = None | Some(value: T)

  /** No element occurs twice. */
  predicate Distinct<T(==)>(xs: seq<T>)
  {
    forall i, j :: 0 <= i < j < |xs| ==> xs[i] != xs[j]
  }

  /** `a` can be obtained from `b` by deleting elements: every element of `a`
      occurs in `b`, in the same relative order. */
  predicate IsSubsequence<T(==)>(a: seq<T>, b: seq<T>)
    decreases |b|
  {
    if |a| == 0 then true
    else if |b| == 0 then false
    else (a[0] == b[0] && IsSubsequence(a[1..], b[1..])) || IsSubsequence(a, b[1..])
  }

  /** The position of the first occurrence of `x` in `xs`. */
  function FirstIndex<T(==)>(xs: seq<T>, x: T): (k: nat)
    requires x in xs
    ensures k < |xs| && xs[k] == x
    ensures forall j :: 0 <= j < k ==> xs[j] != x
  {
    if xs[0] == x then 0 else 1 + FirstIndex(xs[1..], x)
  }

  /** Every element of `u` occurs in `xs`, and `u` lists them in the order
      of their first occurrences in `xs`. */
  predicate InFirstAppearanceOrder<T(==)>(u: seq<T>, xs: seq<T>)
  {
    && (forall i :: 0 <= i < |u| ==> u[i] in xs)
    && (forall i, j :: 0 <= i < j < |u| ==>
          u[i] in xs && u[j] in xs && FirstIndex(xs, u[i]) < FirstIndex(xs, u[j]))
  }

  /** Later in `u` means first found later in `xs`. */
  lemma FirstAppearanceMonotone<T>(u: seq<T>, xs: seq<T>, j: nat, i: nat)
    requires InFirstAppearanceOrder(u, xs) && j <= i < |u|
    ensures u[j] in xs && u[i] in xs && FirstIndex(xs, u[j]) <= FirstIndex(xs, u[i])
  {
  }

  /** An element of the front of `xs` is first found where the front has it. */
  lemma FirstIndexFront<T>(xs: seq<T>, x: T)
    requires |xs| > 0 && x in xs[..|xs| - 1]
    ensures x in xs && FirstIndex(xs, x) == FirstIndex(xs[..|xs| - 1], x)
  {
    var front := xs[..|xs| - 1];
    var k := FirstIndex(front, x);
    assert xs[k] == x;
    assert forall j :: 0 <= j < k ==> xs[j] == front[j];
  }

  /** A last element not found in the front is first found at the end. */
  lemma FirstIndexLast<T>(xs: seq<T>)
    requires |xs| > 0 && xs[|xs| - 1] !in xs[..|xs| - 1]
    ensures FirstIndex(xs, xs[|xs| - 1]) == |xs| - 1
  {
    var front := xs[..|xs| - 1];
    assert forall j :: 0 <= j < |front| ==> xs[j] == front[j];
  }

  /** Appending to `xs` keeps the order of first appearances of `u`. */
  lemma FirstAppearanceSnoc<T>(u: seq<T>, xs: seq<T>)
    requires |xs| > 0 && InFirstAppearanceOrder(u, xs[..|xs| - 1])
    ensures InFirstAppearanceOrder(u, xs)
  {
    forall x | x in u
      ensures x in xs && FirstIndex(xs, x) == FirstIndex(xs[..|xs| - 1], x)
    {
      FirstIndexFront(xs, x);
    }
  }

  /** A new last element of `xs` comes last in the order of first
      appearances. */
  lemma FirstAppearanceSnocNew<T>(u: seq<T>, xs: seq<T>)
    requires |xs| > 0 && InFirstAppearanceOrder(u, xs[..|xs| - 1])
    requires xs[|xs| - 1] !in xs[..|xs| - 1]
    ensures InFirstAppearanceOrder(u + [xs[|xs| - 1]], xs)
  {
    var c := xs[|xs| - 1];
    var w := u + [c];
    FirstAppearanceSnoc(u, xs);
    FirstIndexLast(xs);
    forall i, j | 0 <= i < j < |w|
      ensures w[i] in xs && w[j] in xs && FirstIndex(xs, w[i]) < FirstIndex(xs, w[j])
    {
      assert w[i] == u[i];
      if j < |u| {
        assert w[j] == u[j];
      } else {
        assert FirstIndex(xs, u[i]) == FirstIndex(xs[..|xs| - 1], u[i]);
      }
    }
  }

  /** `f` applied to every element of `xs`, in order. */
  function Map<A, B>(xs: seq<A>, f: A -> B): (ys: seq<B>)
    ensures |ys| == |xs|
    ensures forall i :: 0 <= i < |xs| ==> ys[i] == f(xs[i])
  {
    seq(|xs|, i requires 0 <= i < |xs| => f(xs[i]))
  }

  /** Number of elements of `xs` that satisfy `p`. */
  function Count<T>(xs: seq<T>, p: T -> bool): (n: nat)
    ensures n <= |xs|
  {
    if |xs| == 0 then 0 else (if p(xs[0]) then 1 else 0) + Count(xs[1..], p)
  }

  /** The elements of `xs` that satisfy `p`, in their original order. What
      else holds of the result is stated by the lemmas below:
      `FilterSubsequence`, `FilterCount` and `FilterMembers` together
      determine it uniquely. */
  function Filter<T(==)>(xs: seq<T>, p: T -> bool): (r: seq<T>)
    ensures forall i :: 0 <= i < |r| ==> p(r[i])
    ensures |r| <= |xs|
  {
    if |xs| == 0 then []
    else if p(xs[0]) then [xs[0]] + Filter(xs[1..], p)
    else Filter(xs[1..], p)
  }

  /** Filtering keeps the surviving elements in their original order. */
  lemma {:induction false} FilterSubsequence<T>(xs: seq<T>, p: T -> bool)
    ensures IsSubsequence(Filter(xs, p), xs)
  {
    if |xs| > 0 {
      FilterSubsequence(xs[1..], p);
      var r := Filter(xs, p);
      if p(xs[0]) {
        assert r[0] == xs[0] && r[1..] == Filter(xs[1..], p);
      }
    }
  }

  /** Filtering keeps exactly as many elements as pass. */
  lemma {:induction false} FilterCount<T>(xs: seq<T>, p: T -> bool)
    ensures |Filter(xs, p)| == Count(xs, p)
  {
    if |xs| > 0 {
      FilterCount(xs[1..], p);
    }
  }

  /** An element is in the filtered sequence exactly when it is in `xs` and
      passes. */
  lemma {:induction false} FilterMembers<T>(xs: seq<T>, p: T -> bool)
    ensures forall x :: x in Filter(xs, p) <==> x in xs && p(x)
  {
    if |xs| > 0 {
      FilterMembers(xs[1..], p);
      assert xs == [xs[0]] + xs[1..];
    }
  }

  /** Filtering leaves a sequence whose elements all pass unchanged. */
  lemma {:induction false} FilterKeepsPassing<T>(xs: seq<T>, p: T -> bool)
    requires forall i :: 0 <= i < |xs| ==> p(xs[i])
    ensures Filter(xs, p) == xs
  {
    if |xs| > 0 {
      FilterKeepsPassing(xs[1..], p);
    }
  }

  /** Filtering twice by the same predicate is filtering once. */
  lemma FilterIdempotent<T>(xs: seq<T>, p: T -> bool)
    ensures Filter(Filter(xs, p), p) == Filter(xs, p)
  {
    FilterKeepsPassing(Filter(xs, p), p);
  }

  /** Filtering distributes over concatenation: each element is judged on its own. */
  lemma {:induction false} FilterAppend<T>(a: seq<T>, b: seq<T>, p: T -> bool)
    ensures Filter(a + b, p) == Filter(a, p) + Filter(b, p)
  {
    if |a| > 0 {
      assert (a + b)[1..] == a[1..] + b;
      FilterAppend(a[1..], b, p);
    } else {
      assert a + b == b;
    }
  }

  /** A sequence without repetitions has as many elements as its set. */
  lemma {:induction false} DistinctCard<T>(xs: seq<T>)
    requires Distinct(xs)
    ensures |set x | x in xs| == |xs|
  {
    if |xs| > 0 {
      var front := xs[..|xs| - 1];
      var last := xs[|xs| - 1];
      DistinctCard(front);
      assert (set x | x in xs) == (set x | x in front) + {last};
      assert last !in (set x | x in front);
    }
  }

  /** Counting distributes over concatenation. */
  lemma {:induction false} CountAppend<T>(a: seq<T>, b: seq<T>, p: T -> bool)
    ensures Count(a + b, p) == Count(a, p) + Count(b, p)
  {
    if |a| > 0 {
      assert (a + b)[1..] == a[1..] + b;
      CountAppend(a[1..], b, p);
    } else {
      assert a + b == b;
    }
  }

  /** Nothing is counted when no element passes. */
  lemma {:induction false} CountNone<T>(xs: seq<T>, p: T -> bool)
    requires forall i :: 0 <= i < |xs| ==> !p(xs[i])
    ensures Count(xs, p) == 0
  {
    if |xs| > 0 {
      CountNone(xs[1..], p);
    }
  }

  /** Everything is counted when every element passes. */
  lemma {:induction false} CountAll<T>(xs: seq<T>, p: T -> bool)
    requires forall i :: 0 <= i < |xs| ==> p(xs[i])
    ensures Count(xs, p) == |xs|
  {
    if |xs| > 0 {
      CountAll(xs[1..], p);
    }
  }
}
