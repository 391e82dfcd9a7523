/**
 Contiguous placements as lists of chunk sizes: rank r gets the r-th chunk. Every non-decreasing placement is of
 this form, so a bound over all size lists is a bound over all contiguous placements.
 */
module Layouts {
  import opened Sums
  import opened Placement

  function Total(sizes: seq<nat>): nat
  {
    if |sizes| == 0 then 0 else Total(sizes[..|sizes| - 1]) + sizes[|sizes| - 1]
  }

  /** A run of blocks on one rank. */
  function Run(size: nat, rank: int): (s: seq<int>)
    ensures |s| == size && forall i :: 0 <= i < size ==> s[i] == rank
  {
    seq(size, _ => rank)
  }

  function Layout(sizes: seq<nat>): (ranks: seq<int>)
    ensures |ranks| == Total(sizes)
  {
    var k := |sizes|;
    if k == 0 then [] else Layout(sizes[..k - 1]) + Run(sizes[k - 1], k - 1)
  }

  lemma LayoutAppend(front: seq<nat>, last: nat)
    ensures Layout(front + [last]) == Layout(front) + Run(last, |front|)
    ensures Total(front + [last]) == Total(front) + last
  {
    assert (front + [last])[..|front|] == front;
  }

  function Max(a: real, b: real): real
  {
    if a < b then b else a
  }

  /** The most expensive chunk, from prefix sums of the costs. */
  function MaxChunk(prefix: seq<real>, sizes: seq<nat>): real
    requires Total(sizes) < |prefix|
  {
    var k := |sizes|;
    if k == 0 then 0.0
    else Max(MaxChunk(prefix, sizes[..k - 1]), prefix[Total(sizes)] - prefix[Total(sizes) - sizes[k - 1]])
  }

  /** The layout is a placement of rank-ordered runs. */
  lemma {:induction false} LayoutIsContiguous(sizes: seq<nat>)
    ensures IsPlacement(Layout(sizes), Total(sizes), |sizes|)
    ensures NonDecreasing(Layout(sizes))
  {
    if |sizes| > 0 {
      LayoutIsContiguous(sizes[..|sizes| - 1]);
    }
  }

  lemma {:induction false} LayoutUsesEveryRank(sizes: seq<nat>)
    requires forall r :: 0 <= r < |sizes| ==> sizes[r] > 0
    ensures UsesEveryRank(Layout(sizes), |sizes|)
  {
    var k := |sizes|;
    if k > 0 {
      LayoutUsesEveryRank(sizes[..k - 1]);
      var p := Layout(sizes);
      forall r | 0 <= r < k ensures r in p {
        if r == k - 1 {
          assert p[|p| - 1] == r;
        } else {
          assert r in Layout(sizes[..k - 1]);
        }
      }
    }
  }

  lemma {:induction false} CountOfRun(size: nat, rank: int, r: int)
    ensures Count(Run(size, rank), r) == if r == rank then size else 0
  {
    if size > 0 {
      CountOfRun(size - 1, rank, r);
      assert Run(size, rank)[..size - 1] == Run(size - 1, rank);
    }
  }

  /** Rank r holds as many blocks as its chunk has. */
  lemma {:induction false} CountOfLayout(sizes: seq<nat>, r: int)
    ensures Count(Layout(sizes), r) == if 0 <= r < |sizes| then sizes[r] else 0
  {
    var k := |sizes|;
    if k > 0 {
      CountOfLayout(sizes[..k - 1], r);
      CountOfRun(sizes[k - 1], k - 1, r);
      CountAppend(Layout(sizes[..k - 1]), Run(sizes[k - 1], k - 1), r);
    }
  }

  lemma {:induction false} LoadOfRun(costs: seq<real>, rank: int)
    ensures Load(costs, Run(|costs|, rank), rank) == Sum(costs)
  {
    var n := |costs|;
    if n > 0 {
      LoadOfRun(costs[..n - 1], rank);
      assert Run(n, rank)[..n - 1] == Run(n - 1, rank);
    }
  }

  lemma LoadOfLayout(costs: seq<real>, sizes: seq<nat>, r: int)
    requires |sizes| > 0 && Total(sizes) == |costs|
    ensures var k := |sizes|; var cut := |costs| - sizes[k - 1];
            Load(costs, Layout(sizes), r)
            == if r == k - 1 then Sum(costs[cut..]) else Load(costs[..cut], Layout(sizes[..k - 1]), r)
  {
    var k := |sizes|;
    var cut := |costs| - sizes[k - 1];
    var front, back := Layout(sizes[..k - 1]), Run(sizes[k - 1], k - 1);
    assert costs[..cut] + costs[cut..] == costs;
    LoadAppend(costs[..cut], front, costs[cut..], back, r);
    if r == k - 1 {
      LayoutIsContiguous(sizes[..k - 1]);
      LoadOfAbsentRank(costs[..cut], front, r);
      LoadOfRun(costs[cut..], r);
    } else {
      LoadOfAbsentRank(costs[cut..], back, r);
    }
  }

  /** The loads of a layout: those of the chunks before the last one, and the last chunk's cost. */
  lemma MaxLoadStep(costs: seq<real>, sizes: seq<nat>, cut: nat, bound: real)
    requires |sizes| > 0 && Total(sizes) == |costs| && cut == |costs| - sizes[|sizes| - 1]
    ensures MaxLoadAtMost(costs, Layout(sizes), |sizes|, bound)
            <==> MaxLoadAtMost(costs[..cut], Layout(sizes[..|sizes| - 1]), |sizes| - 1, bound)
                 && Sum(costs[cut..]) <= bound
  {
    var k := |sizes|;
    var front := Layout(sizes[..k - 1]);
    if MaxLoadAtMost(costs, Layout(sizes), k, bound) {
      forall r | 0 <= r < k - 1 ensures Load(costs[..cut], front, r) <= bound {
        LoadOfLayout(costs, sizes, r);
      }
    }
    if MaxLoadAtMost(costs[..cut], front, k - 1, bound) && Sum(costs[cut..]) <= bound {
      forall r | 0 <= r < k ensures Load(costs, Layout(sizes), r) <= bound {
        LoadOfLayout(costs, sizes, r);
      }
    }
    LoadOfLayout(costs, sizes, k - 1);
  }

  /** The most expensive chunk is the maximum load of the layout. */
  lemma {:induction false} MaxChunkIsMaxLoad(costs: seq<real>, sizes: seq<nat>, bound: real)
    requires Total(sizes) <= |costs| && 0.0 <= bound
    ensures MaxChunk(Prefixes(costs), sizes) <= bound
            <==> MaxLoadAtMost(costs[..Total(sizes)], Layout(sizes), |sizes|, bound)
  {
    var k, n := |sizes|, Total(sizes);
    if k > 0 {
      var cut := n - sizes[k - 1];
      MaxChunkIsMaxLoad(costs, sizes[..k - 1], bound);
      MaxLoadStep(costs[..n], sizes, cut, bound);
      assert costs[..n][..cut] == costs[..cut] && costs[..n][cut..] == costs[cut..n];
      PrefixDifference(costs, cut, n);
    }
  }

  // ----- every contiguous placement is a layout -----

  /** How many blocks each rank holds. */
  function Counts(ranks: seq<int>, nranks: nat): (sizes: seq<nat>)
    ensures |sizes| == nranks && forall r :: 0 <= r < nranks ==> sizes[r] == Count(ranks, r)
  {
    seq(nranks, r => Count(ranks, r))
  }

  lemma {:induction false} LastRankIsSuffix(ranks: seq<int>, nranks: nat)
    requires nranks > 0 && IsPlacement(ranks, |ranks|, nranks) && NonDecreasing(ranks)
    ensures Count(ranks, nranks - 1) <= |ranks|
    ensures forall b :: 0 <= b < |ranks| ==> (ranks[b] == nranks - 1 <==> b >= |ranks| - Count(ranks, nranks - 1))
  {
    var n := |ranks|;
    if n > 0 {
      LastRankIsSuffix(ranks[..n - 1], nranks);
      if ranks[n - 1] < nranks - 1 {
        assert forall b :: 0 <= b < n ==> ranks[b] <= ranks[n - 1];
        CountPositive(ranks, nranks - 1);
      }
    }
  }

  lemma CountsWithoutLast(ranks: seq<int>, nranks: nat, cut: nat)
    requires 0 < nranks && cut <= |ranks|
    requires forall b :: cut <= b < |ranks| ==> ranks[b] == nranks - 1
    ensures Counts(ranks, nranks)[..nranks - 1] == Counts(ranks[..cut], nranks - 1)
  {
    forall r | 0 <= r < nranks - 1 ensures Count(ranks, r) == Count(ranks[..cut], r) {
      CountAppend(ranks[..cut], ranks[cut..], r);
      CountPositive(ranks[cut..], r);
      assert ranks[..cut] + ranks[cut..] == ranks;
    }
  }

  lemma {:induction false} ContiguousIsLayout(ranks: seq<int>, nranks: nat)
    requires IsPlacement(ranks, |ranks|, nranks) && NonDecreasing(ranks)
    ensures Layout(Counts(ranks, nranks)) == ranks
    decreases nranks
  {
    if nranks > 0 {
      LastRankIsSuffix(ranks, nranks);
      var cut := |ranks| - Count(ranks, nranks - 1);
      ContiguousIsLayout(ranks[..cut], nranks - 1);
      CountsWithoutLast(ranks, nranks, cut);
      assert ranks == ranks[..cut] + Run(|ranks| - cut, nranks - 1);
    }
  }
}
