/**
 The "cdp" policy (lb/src/lb_contig_improv.cc, AssignBlocksContigImproved): greedy when the blocks divide evenly, else
 CDP.
 */
module ContigImproved {
  import opened Sums
  import opened Placement
  import opened Layouts
  import opened Contiguous
  import opened Cdp

  /** The placement, or None where the policy aborts. */
  function Improved(costs: seq<real>, nranks: nat): Option<seq<int>>
    requires 0 < nranks
  {
    if |costs| % nranks == 0 then Greedy(costs, nranks)
    else if Sum(costs) > 0.0 then Some(Layout(CdpSizes(costs, nranks)))
    else None
  }

  method AssignBlocksContigImproved(costs: seq<real>, ranklist: array<int>, nranks: nat) returns (ok: bool)
    requires 0 < nranks && Nonnegative(costs) && ranklist.Length == |costs|
    requires |costs| % nranks == 0 || nranks <= |costs|
    modifies ranklist
    ensures ok <==> Improved(costs, nranks).Some?
    ensures ok ==> ranklist[..] == Improved(costs, nranks).value
  {
    if |costs| % nranks == 0 {
      ok := AssignBlocksContiguous(costs, ranklist, nranks);
    } else {
      ok := AssignBlocksDP(costs, ranklist, nranks);
    }
  }

  /** Every block is placed. */
  lemma ImprovedLength(costs: seq<real>, nranks: nat)
    requires 0 < nranks
    ensures Improved(costs, nranks).Some? ==> |Improved(costs, nranks).value| == |costs|
  {
    if |costs| % nranks == 0 {
      if Greedy(costs, nranks).Some? {
        GreedyIsContiguous(costs, nranks);
      }
    } else {
      var choice, na, nb, i, j := CdpParts(costs, nranks);
      ChosenSizesShape(choice, na, nb, i, j);
    }
  }

  /** Contiguous in rank order, with no rank left out. */
  ghost predicate IsFullContiguous(ranks: seq<int>, nblocks: nat, nranks: nat)
  {
    IsPlacement(ranks, nblocks, nranks) && NonDecreasing(ranks) && UsesEveryRank(ranks, nranks)
  }

  lemma LargestCost(costs: seq<real>) returns (cmax: real)
    ensures EachAtMost(costs, cmax)
  {
    if |costs| == 0 {
      cmax := 0.0;
    } else {
      var rest := LargestCost(costs[..|costs| - 1]);
      cmax := Max(rest, costs[|costs| - 1]);
      forall b | 0 <= b < |costs| ensures costs[b] <= cmax {
        if b < |costs| - 1 {
          assert costs[b] == costs[..|costs| - 1][b];
        }
      }
    }
  }

  /** Whenever the policy does not abort, its placement is contiguous over all ranks. */
  lemma ImprovedIsContiguous(costs: seq<real>, nranks: nat)
    requires 0 < nranks <= |costs| && Improved(costs, nranks).Some?
    ensures IsFullContiguous(Improved(costs, nranks).value, |costs|, nranks)
  {
    if |costs| % nranks == 0 {
      GreedyIsContiguous(costs, nranks);
    } else {
      CdpIsCandidate(costs, nranks);
    }
  }

  /** It does not abort when no cost is negative and the first is positive. */
  lemma ImprovedSucceeds(costs: seq<real>, nranks: nat)
    requires 0 < nranks <= |costs| && Chargeable(costs)
    ensures Improved(costs, nranks).Some?
  {
    if |costs| % nranks == 0 {
      var cmax := LargestCost(costs);
      GreedySplit(costs, nranks, cmax);
    } else {
      PrefixIsPositive(costs, |costs|);
      assert costs[..|costs|] == costs;
    }
  }

  /**
   What the dispatch is for, blocks that divide evenly: for a positive first cost and no negative one every load is at
   most the average plus the largest cost.
   */
  lemma ImprovedEvenBound(costs: seq<real>, nranks: nat, cmax: real)
    requires 0 < nranks <= |costs| && |costs| % nranks == 0 && Chargeable(costs) && EachAtMost(costs, cmax)
    ensures Improved(costs, nranks).Some? && |Improved(costs, nranks).value| == |costs|
    ensures MaxLoadAtMost(costs, Improved(costs, nranks).value, nranks, Sum(costs) / nranks as real + cmax)
  {
    GreedySplit(costs, nranks, cmax);
  }

  /** Other numbers of blocks: no contiguous balanced placement has a smaller maximum load. */
  lemma ImprovedUnevenIsOptimal(costs: seq<real>, nranks: nat, other: seq<int>, bound: real)
    requires 0 < nranks <= |costs| && |costs| % nranks != 0 && Improved(costs, nranks).Some?
    requires IsCandidate(other, |costs|, nranks) && 0.0 <= bound && MaxLoadAtMost(costs, other, nranks, bound)
    ensures |Improved(costs, nranks).value| == |costs|
    ensures MaxLoadAtMost(costs, Improved(costs, nranks).value, nranks, bound)
    ensures IsCandidate(Improved(costs, nranks).value, |costs|, nranks)
  {
    CdpIsOptimal(costs, nranks, other, bound);
    CdpIsCandidate(costs, nranks);
  }
}
