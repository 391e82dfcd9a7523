/** Placements of blocks on ranks, their loads, and the counting facts that bound them. */
module Placement {
  import opened Sums

  datatype Option<+T> = None | Some(value: T)

  /** Every block has a rank in [0, nranks). */
  ghost predicate IsPlacement(ranks: seq<int>, nblocks: nat, nranks: nat)
  {
    |ranks| == nblocks && forall b :: 0 <= b < nblocks ==> 0 <= ranks[b] < nranks
  }

  ghost predicate Nonnegative(costs: seq<real>)
  {
    forall b :: 0 <= b < |costs| ==> 0.0 <= costs[b]
  }

  /** What rank r carries under a placement. */
  function Load(costs: seq<real>, ranks: seq<int>, r: int): real
    requires |costs| == |ranks|
  {
    var n := |costs|;
    if n == 0 then 0.0
    else Load(costs[..n - 1], ranks[..n - 1], r) + (if ranks[n - 1] == r then costs[n - 1] else 0.0)
  }

  /** How many blocks rank r holds. */
  function Count(ranks: seq<int>, r: int): nat
  {
    var n := |ranks|;
    if n == 0 then 0 else Count(ranks[..n - 1], r) + (if ranks[n - 1] == r then 1 else 0)
  }

  /** The loads of ranks 0 to n - 1. */
  function Loads(costs: seq<real>, ranks: seq<int>, n: nat): (l: seq<real>)
    requires |costs| == |ranks|
    ensures |l| == n && forall r :: 0 <= r < n ==> l[r] == Load(costs, ranks, r)
  {
    seq(n, r requires 0 <= r < n => Load(costs, ranks, r))
  }

  ghost predicate MaxLoadAtMost(costs: seq<real>, ranks: seq<int>, nranks: nat, bound: real)
    requires |costs| == |ranks|
  {
    forall r :: 0 <= r < nranks ==> Load(costs, ranks, r) <= bound
  }

  ghost predicate UsesEveryRank(ranks: seq<int>, nranks: nat)
  {
    forall r :: 0 <= r < nranks ==> r in ranks
  }

  ghost predicate NonDecreasing(ranks: seq<int>)
  {
    forall i, j :: 0 <= i <= j < |ranks| ==> ranks[i] <= ranks[j]
  }

  lemma {:induction false} LoadAppend(c1: seq<real>, p1: seq<int>, c2: seq<real>, p2: seq<int>, r: int)
    requires |c1| == |p1| && |c2| == |p2|
    ensures Load(c1 + c2, p1 + p2, r) == Load(c1, p1, r) + Load(c2, p2, r)
  {
    if |c2| == 0 {
      assert c1 + c2 == c1 && p1 + p2 == p1;
    } else {
      LoadAppend(c1, p1, c2[..|c2| - 1], p2[..|p2| - 1], r);
      assert (c1 + c2)[..|c1 + c2| - 1] == c1 + c2[..|c2| - 1];
      assert (p1 + p2)[..|p1 + p2| - 1] == p1 + p2[..|p2| - 1];
    }
  }

  lemma LoadsOfThree(a: real, b: real, c: real, p: int, q: int, s: int, r: int)
    ensures Load([a, b, c], [p, q, s], r)
            == (if p == r then a else 0.0) + (if q == r then b else 0.0) + (if s == r then c else 0.0)
  {
    LoadAppend([a], [p], [b], [q], r);
    LoadAppend([a, b], [p, q], [c], [s], r);
    assert [a, b, c] == [a, b] + [c] && [p, q, s] == [p, q] + [s];
    assert [a, b] == [a] + [b] && [p, q] == [p] + [q];
  }

  lemma {:induction false} LoadNonnegative(costs: seq<real>, ranks: seq<int>, r: int)
    requires |costs| == |ranks| && Nonnegative(costs)
    ensures 0.0 <= Load(costs, ranks, r)
  {
    var n := |costs|;
    if n > 0 {
      LoadNonnegative(costs[..n - 1], ranks[..n - 1], r);
    }
  }

  lemma LoadPrefix(costs: seq<real>, ranks: seq<int>, k: nat, r: int)
    requires |costs| == |ranks| && Nonnegative(costs) && k <= |costs|
    ensures Load(costs[..k], ranks[..k], r) <= Load(costs, ranks, r)
  {
    LoadAppend(costs[..k], ranks[..k], costs[k..], ranks[k..], r);
    LoadNonnegative(costs[k..], ranks[k..], r);
    assert costs[..k] + costs[k..] == costs && ranks[..k] + ranks[k..] == ranks;
  }

  lemma {:induction false} LoadOfAbsentRank(costs: seq<real>, ranks: seq<int>, r: int)
    requires |costs| == |ranks|
    requires r !in ranks
    ensures Load(costs, ranks, r) == 0.0
  {
    var n := |costs|;
    if n > 0 {
      assert ranks[n - 1] in ranks;
      LoadOfAbsentRank(costs[..n - 1], ranks[..n - 1], r);
    }
  }

  lemma LoadAtLeastBlock(costs: seq<real>, ranks: seq<int>, b: nat)
    requires |costs| == |ranks| && Nonnegative(costs) && b < |costs|
    ensures costs[b] <= Load(costs, ranks, ranks[b])
  {
    LoadPrefix(costs, ranks, b + 1, ranks[b]);
    assert costs[..b + 1][..b] == costs[..b] && ranks[..b + 1][..b] == ranks[..b];
    LoadNonnegative(costs[..b], ranks[..b], ranks[b]);
  }

  /** The blocks of rank r, the others replaced by zero cost. */
  function Masked(costs: seq<real>, ranks: seq<int>, r: int): (s: seq<real>)
    requires |costs| == |ranks|
    ensures |s| == |costs|
  {
    seq(|costs|, b requires 0 <= b < |costs| => if ranks[b] == r then costs[b] else 0.0)
  }

  lemma {:induction false} LoadIsMaskedSum(costs: seq<real>, ranks: seq<int>, r: int)
    requires |costs| == |ranks|
    ensures Load(costs, ranks, r) == Sum(Masked(costs, ranks, r))
  {
    var n := |costs|;
    if n > 0 {
      LoadIsMaskedSum(costs[..n - 1], ranks[..n - 1], r);
      assert Masked(costs, ranks, r)[..n - 1] == Masked(costs[..n - 1], ranks[..n - 1], r);
    }
  }

  /** Loads do not depend on the order in which blocks are listed. */
  lemma LoadPermutation(costs: seq<real>, ranks: seq<int>, order: seq<nat>, r: int)
    requires |costs| == |ranks| && IsPermutation(order, |costs|)
    ensures Load(Permute(costs, order), Permute(ranks, order), r) == Load(costs, ranks, r)
  {
    LoadIsMaskedSum(costs, ranks, r);
    LoadIsMaskedSum(Permute(costs, order), Permute(ranks, order), r);
    SumPermutation(Masked(costs, ranks, r), order);
    assert Masked(Permute(costs, order), Permute(ranks, order), r) == Permute(Masked(costs, ranks, r), order);
  }

  /** The loads of ranks 0..nranks-1 added up. */
  function TotalLoad(costs: seq<real>, ranks: seq<int>, nranks: nat): real
    requires |costs| == |ranks|
  {
    if nranks == 0 then 0.0 else TotalLoad(costs, ranks, nranks - 1) + Load(costs, ranks, nranks - 1)
  }

  /** Adding a block to rank r raises the total of the ranks below nranks exactly when r is one of them. */
  lemma {:induction false} TotalLoadStep(costs: seq<real>, ranks: seq<int>, nranks: nat)
    requires |costs| == |ranks| > 0
    ensures var n := |costs|;
            TotalLoad(costs, ranks, nranks)
            == TotalLoad(costs[..n - 1], ranks[..n - 1], nranks)
               + (if 0 <= ranks[n - 1] < nranks then costs[n - 1] else 0.0)
  {
    if nranks > 0 {
      TotalLoadStep(costs, ranks, nranks - 1);
    }
  }

  lemma {:induction false} TotalLoadOfNothing(nranks: nat)
    ensures TotalLoad([], [], nranks) == 0.0
  {
    if nranks > 0 {
      TotalLoadOfNothing(nranks - 1);
    }
  }

  /** Conservation: the ranks together carry the whole cost. */
  lemma {:induction false} LoadsAddUp(costs: seq<real>, ranks: seq<int>, nranks: nat)
    requires IsPlacement(ranks, |costs|, nranks)
    ensures TotalLoad(costs, ranks, nranks) == Sum(costs)
  {
    var n := |costs|;
    if n == 0 {
      assert costs == [] && ranks == [];
      TotalLoadOfNothing(nranks);
    } else {
      TotalLoadStep(costs, ranks, nranks);
      LoadsAddUp(costs[..n - 1], ranks[..n - 1], nranks);
    }
  }

  lemma {:induction false} TotalLoadUpper(costs: seq<real>, ranks: seq<int>, nranks: nat, bound: real)
    requires |costs| == |ranks| && MaxLoadAtMost(costs, ranks, nranks, bound)
    ensures TotalLoad(costs, ranks, nranks) <= Times(nranks, bound)
  {
    if nranks > 0 {
      TotalLoadUpper(costs, ranks, nranks - 1, bound);
    }
  }

  /** No placement beats the average. */
  lemma AverageIsLowerBound(costs: seq<real>, ranks: seq<int>, nranks: nat, bound: real)
    requires IsPlacement(ranks, |costs|, nranks) && MaxLoadAtMost(costs, ranks, nranks, bound)
    ensures Sum(costs) <= Times(nranks, bound)
  {
    LoadsAddUp(costs, ranks, nranks);
    TotalLoadUpper(costs, ranks, nranks, bound);
  }

  lemma {:induction false} CountAppend(p1: seq<int>, p2: seq<int>, r: int)
    ensures Count(p1 + p2, r) == Count(p1, r) + Count(p2, r)
  {
    if |p2| == 0 {
      assert p1 + p2 == p1;
    } else {
      CountAppend(p1, p2[..|p2| - 1], r);
      assert (p1 + p2)[..|p1 + p2| - 1] == p1 + p2[..|p2| - 1];
    }
  }

  lemma {:induction false} CountPositive(ranks: seq<int>, r: int)
    ensures Count(ranks, r) > 0 <==> r in ranks
  {
    var n := |ranks|;
    if n > 0 {
      CountPositive(ranks[..n - 1], r);
      assert r in ranks <==> r in ranks[..n - 1] || r == ranks[n - 1];
    }
  }

  function TotalCount(ranks: seq<int>, nranks: nat): nat
  {
    if nranks == 0 then 0 else TotalCount(ranks, nranks - 1) + Count(ranks, nranks - 1)
  }

  lemma {:induction false} TotalCountStep(ranks: seq<int>, nranks: nat)
    requires |ranks| > 0
    ensures var n := |ranks|;
            TotalCount(ranks, nranks)
            == TotalCount(ranks[..n - 1], nranks) + (if 0 <= ranks[n - 1] < nranks then 1 else 0)
  {
    if nranks > 0 {
      TotalCountStep(ranks, nranks - 1);
    }
  }

  lemma {:induction false} TotalCountOfNothing(nranks: nat)
    ensures TotalCount([], nranks) == 0
  {
    if nranks > 0 {
      TotalCountOfNothing(nranks - 1);
    }
  }

  /** Every block is counted on exactly one rank. */
  lemma {:induction false} CountsAddUp(ranks: seq<int>, nranks: nat)
    requires IsPlacement(ranks, |ranks|, nranks)
    ensures TotalCount(ranks, nranks) == |ranks|
  {
    var n := |ranks|;
    if n == 0 {
      assert ranks == [];
      TotalCountOfNothing(nranks);
    } else {
      TotalCountStep(ranks, nranks);
      CountsAddUp(ranks[..n - 1], nranks);
    }
  }
}
