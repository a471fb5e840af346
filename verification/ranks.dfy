/** The two pandas ranking rules the warehouse uses: `rank(method='min')`
    ascending for fastest laps and `rank(method='dense', ascending=False)`
    for standings positions. Both take the group's values and a value of
    that group. */
module Ranks {
  import opened Wrappers

  /** How many entries of `xs` are strictly below `v`. */
  function CountBelow(xs: seq<int>, v: int): (n: nat)
    ensures n <= |xs|
  {
    if |xs| == 0 then 0 else (if xs[0] < v then 1 else 0) + CountBelow(xs[1..], v)
  }

  /** How many entries of `xs` equal `v` (the size of v's tie group). */
  function CountEqual(xs: seq<int>, v: int): (n: nat)
    ensures n <= |xs|
  {
    if |xs| == 0 then 0 else (if xs[0] == v then 1 else 0) + CountEqual(xs[1..], v)
  }

  /** Competition ("min") rank, ascending: ties share the lowest rank of the
      tie group, and the next value skips by the size of the group. */
  function MinRank(xs: seq<int>, v: int): (r: nat)
    ensures r >= 1
  {
    1 + CountBelow(xs, v)
  }

  /** The distinct values of `xs` strictly above `v`. */
  function ValuesAbove(xs: seq<int>, v: int): set<int> {
    set x | x in xs && x > v
  }

  /** Dense rank, descending: ties share a rank, and the next smaller
      distinct value gets the next integer. */
  function DenseRankDesc(xs: seq<int>, v: int): (r: nat)
    ensures r >= 1
  {
    1 + |ValuesAbove(xs, v)|
  }

  lemma {:induction false} CountEqualMember(xs: seq<int>, v: int)
    requires v in xs
    ensures CountEqual(xs, v) >= 1
  {
    if xs[0] != v {
      assert v in xs[1..];
      CountEqualMember(xs[1..], v);
    }
  }

  lemma {:induction false} CountBelowStep(xs: seq<int>, v: int, w: int)
    requires v < w
    ensures CountBelow(xs, w) >= CountBelow(xs, v) + CountEqual(xs, v)
    ensures (forall x :: x in xs ==> !(v < x < w))
            ==> CountBelow(xs, w) == CountBelow(xs, v) + CountEqual(xs, v)
  {
    if |xs| > 0 {
      CountBelowStep(xs[1..], v, w);
      if forall x :: x in xs ==> !(v < x < w) {
        assert xs[0] in xs;
        assert forall x :: x in xs[1..] ==> x in xs;
      }
    }
  }

  /** A value of the group ranks at most the group size. */
  lemma {:induction false} MinRankWithinGroup(xs: seq<int>, v: int)
    requires v in xs
    ensures MinRank(xs, v) <= |xs|
  {
    if xs[0] != v {
      assert v in xs[1..];
      MinRankWithinGroup(xs[1..], v);
    }
  }

  /** A strictly larger value ranks strictly behind a present value, and when
      no value lies between them the rank jumps by exactly the tie group's size. */
  lemma MinRankGap(xs: seq<int>, v: int, w: int)
    requires v in xs && v < w
    ensures MinRank(xs, v) < MinRank(xs, w)
    ensures (forall x :: x in xs ==> !(v < x < w))
            ==> MinRank(xs, w) == MinRank(xs, v) + CountEqual(xs, v)
  {
    CountEqualMember(xs, v);
    CountBelowStep(xs, v, w);
  }

  lemma CardinalityOfProperSubset(a: set<int>, b: set<int>, x: int)
    requires a <= b && x in b && x !in a
    ensures |a| < |b|
  {
    assert a + (b - a) == b;
    assert a * (b - a) == {};
    assert x in b - a;
  }

  /** A strictly larger present value gets a strictly better (smaller) dense rank. */
  lemma DenseRankStrict(xs: seq<int>, v: int, w: int)
    requires v in xs && v > w
    ensures DenseRankDesc(xs, v) < DenseRankDesc(xs, w)
  {
    assert v in ValuesAbove(xs, w) && v !in ValuesAbove(xs, v);
    CardinalityOfProperSubset(ValuesAbove(xs, v), ValuesAbove(xs, w), v);
  }

  /** The smallest value of `xs` strictly above `v`, if any. */
  function NextAbove(xs: seq<int>, v: int): (r: Option<int>)
    ensures r.Some? ==> r.value in xs && r.value > v
    ensures r.Some? ==> forall x :: x in xs && x > v ==> r.value <= x
    ensures r.None? ==> forall x :: x in xs ==> x <= v
  {
    if |xs| == 0 then None
    else
      var rest := NextAbove(xs[1..], v);
      assert forall x :: x in xs ==> x == xs[0] || x in xs[1..];
      if xs[0] > v && (rest.None? || xs[0] < rest.value) then Some(xs[0]) else rest
  }

  /** Dense ranks leave no gap: a present value ranked below first has a
      present value ranked exactly one better. */
  lemma DenseRankNoGap(xs: seq<int>, v: int) returns (u: int)
    requires v in xs && DenseRankDesc(xs, v) > 1
    ensures u in xs && u > v
    ensures DenseRankDesc(xs, u) == DenseRankDesc(xs, v) - 1
  {
    var above := ValuesAbove(xs, v);
    match NextAbove(xs, v)
    case None =>
      assert false;
    case Some(m) =>
      u := m;
      assert ValuesAbove(xs, u) == above - {u};
  }

  /** Every rank between 1 and a present value's rank is held by some present value. */
  lemma {:induction false} DenseRankContiguous(xs: seq<int>, v: int, k: nat)
    requires v in xs && 1 <= k <= DenseRankDesc(xs, v)
    ensures exists u :: u in xs && DenseRankDesc(xs, u) == k
    decreases DenseRankDesc(xs, v) - k
  {
    if k < DenseRankDesc(xs, v) {
      var u := DenseRankNoGap(xs, v);
      DenseRankContiguous(xs, u, k);
    }
  }

  /** Fastest-lap example: [90000, 90000, 91000] ranks [1, 1, 3]. */
  lemma MinRankExample()
    ensures MinRank([90000, 90000, 91000], 90000) == 1
    ensures MinRank([90000, 90000, 91000], 91000) == 3
  {
  }

  /** Standings example: points [30, 30, 20, 10] rank [1, 1, 2, 3]. */
  lemma DenseRankExample()
    ensures DenseRankDesc([30, 30, 20, 10], 30) == 1
    ensures DenseRankDesc([30, 30, 20, 10], 20) == 2
    ensures DenseRankDesc([30, 30, 20, 10], 10) == 3
  {
    var xs := [30, 30, 20, 10];
    assert ValuesAbove(xs, 30) == {};
    assert ValuesAbove(xs, 20) == {30};
    assert ValuesAbove(xs, 10) == {30, 20};
  }
}
