/**
 CPLX (lb/src/lb_cplx.cc): a CDP placement, then LPT on at most k ranks chosen from both ends of the load order, then
 cheaper alternatives with half as many ranks.
 */
module Cplx {
  import opened Sums
  import opened Placement
  import opened Sorting
  import opened Lpt
  import opened Rebalance
  import opened ContigImproved
  import Chunkwise
  import ChunkedCdp

  const DIFF_THRESHOLD := 0.02

  // ----- choosing the ranks -----

  /** How many ranks are taken from the loaded end and from the idle end of the load order. */
  datatype Span = Span(front: nat, back: nat)
  {
    function Size(): nat { front + back }
  }

  function SpanSum(sorted: seq<real>, s: Span): real
    requires s.Size() <= |sorted|
  {
    Sum(sorted[..s.front]) + Sum(sorted[|sorted| - s.back..])
  }

  function SpanMean(sorted: seq<real>, s: Span): real
    requires 0 < s.Size() <= |sorted|
  {
    SpanSum(sorted, s) / s.Size() as real
  }

  /** One more rank: from the idle end when the mean is too high, else from the loaded end. */
  function Widen(sorted: seq<real>, avg: real, s: Span): Span
    requires 0 < s.Size() < |sorted|
  {
    if SpanMean(sorted, s) > avg then s.(back := s.back + 1) else s.(front := s.front + 1)
  }

  /** The two candidates for the next step are both close to the average. */
  predicate NearlyBalanced(sorted: seq<real>, avg: real, s: Span)
    requires s.Size() < |sorted|
  {
    && sorted[s.front] - avg < avg * DIFF_THRESHOLD
    && avg - sorted[|sorted| - 1 - s.back] < avg * DIFF_THRESHOLD
  }

  /** The loop of GetLPTRanksV3. */
  function Grow(sorted: seq<real>, avg: real, nmax: nat, s: Span): Span
    requires 0 < s.Size() <= |sorted| && nmax <= |sorted|
    decreases nmax - s.Size()
  {
    if s.Size() >= nmax || SpanMean(sorted, s) == avg then s
    else if NearlyBalanced(sorted, avg, s) then Widen(sorted, avg, s)
    else Grow(sorted, avg, nmax, Widen(sorted, avg, s))
  }

  lemma {:induction false} GrowSize(sorted: seq<real>, avg: real, nmax: nat, s: Span)
    requires 0 < s.front && s.Size() <= nmax <= |sorted|
    ensures var t := Grow(sorted, avg, nmax, s); s.front <= t.front && s.back <= t.back && t.Size() <= nmax
    decreases nmax - s.Size()
  {
    if !(s.Size() >= nmax || SpanMean(sorted, s) == avg) && !NearlyBalanced(sorted, avg, s) {
      GrowSize(sorted, avg, nmax, Widen(sorted, avg, s));
    }
  }

  /** Every rank outside the span is within the threshold of the average. */
  ghost predicate RestIsBalanced(sorted: seq<real>, avg: real, s: Span)
    requires s.Size() <= |sorted|
  {
    forall i :: s.front <= i < |sorted| - s.back ==> -(avg * DIFF_THRESHOLD) < sorted[i] - avg < avg * DIFF_THRESHOLD
  }

  /** The selection stops short of nmax only when its mean is the average or all the others are balanced. */
  lemma {:induction false} GrowStops(sorted: seq<real>, avg: real, nmax: nat, s: Span)
    requires 0 < s.front && s.Size() <= nmax <= |sorted| && Descending(sorted)
    ensures var t := Grow(sorted, avg, nmax, s);
            && 0 < t.Size() <= nmax
            && (t.Size() == nmax || SpanSum(sorted, t) == Times(t.Size(), avg) || RestIsBalanced(sorted, avg, t))
    decreases nmax - s.Size()
  {
    GrowSize(sorted, avg, nmax, s);
    if s.Size() >= nmax || SpanMean(sorted, s) == avg {
      TimesOfQuotient(s.Size(), SpanSum(sorted, s));
    } else if NearlyBalanced(sorted, avg, s) {
      var t := Widen(sorted, avg, s);
      forall i | t.front <= i < |sorted| - t.back
        ensures -(avg * DIFF_THRESHOLD) < sorted[i] - avg < avg * DIFF_THRESHOLD
      {
        assert sorted[|sorted| - 1 - s.back] <= sorted[i] <= sorted[s.front];
      }
    } else {
      GrowStops(sorted, avg, nmax, Widen(sorted, avg, s));
    }
  }

  /** The ranks at both ends of the load order. */
  function Ends(order: seq<nat>, s: Span): seq<int>
    requires s.Size() <= |order|
  {
    order[..s.front] + order[|order| - s.back..]
  }

  /** selected is what GetLPTRanksV3 returns for some descending order of the rank costs. */
  ghost predicate IsSelection(rankCosts: seq<real>, avg: real, nmax: int, selected: seq<int>)
  {
    if nmax <= 0 then selected == []
    else exists order :: IsSelectionBy(rankCosts, avg, nmax, selected, order)
  }

  ghost predicate IsSelectionBy(rankCosts: seq<real>, avg: real, nmax: nat, selected: seq<int>, order: seq<nat>)
  {
    && 0 < nmax <= |rankCosts| && IsDescendingOrder(rankCosts, order)
    && Grow(Permute(rankCosts, order), avg, nmax, Span(1, 0)).Size() <= |order|
    && selected == Ends(order, Grow(Permute(rankCosts, order), avg, nmax, Span(1, 0)))
  }

  function Picked(rankCosts: seq<real>, selected: seq<int>): (p: seq<real>)
    requires forall i :: 0 <= i < |selected| ==> 0 <= selected[i] < |rankCosts|
    ensures |p| == |selected| && forall i :: 0 <= i < |selected| ==> p[i] == rankCosts[selected[i]]
  {
    seq(|selected|, i requires 0 <= i < |selected| => rankCosts[selected[i]])
  }

  function SelectedSum(rankCosts: seq<real>, selected: seq<int>): real
    requires forall i :: 0 <= i < |selected| ==> 0 <= selected[i] < |rankCosts|
  {
    Sum(Picked(rankCosts, selected))
  }

  lemma EndsPicked(rankCosts: seq<real>, order: seq<nat>, t: Span)
    requires IsPermutation(order, |rankCosts|) && t.Size() <= |order|
    ensures var sorted := Permute(rankCosts, order);
            Picked(rankCosts, Ends(order, t)) == sorted[..t.front] + sorted[|sorted| - t.back..]
  {
  }

  lemma EndsSum(rankCosts: seq<real>, order: seq<nat>, t: Span)
    requires IsPermutation(order, |rankCosts|) && t.Size() <= |order|
    ensures SelectedSum(rankCosts, Ends(order, t)) == SpanSum(Permute(rankCosts, order), t)
  {
    EndsPicked(rankCosts, order, t);
    SpanIsSum(Permute(rankCosts, order), t);
  }

  lemma SpanIsSum(sorted: seq<real>, t: Span)
    requires t.Size() <= |sorted|
    ensures SpanSum(sorted, t) == Sum(sorted[..t.front] + sorted[|sorted| - t.back..])
  {
    SumAppend(sorted[..t.front], sorted[|sorted| - t.back..]);
  }

  lemma EndsElements(order: seq<nat>, t: Span)
    requires IsPermutation(order, |order|) && t.Size() <= |order|
    ensures Distinct(Ends(order, t))
    ensures |Ends(order, t)| == t.Size()
    ensures forall i :: 0 <= i < |Ends(order, t)| ==> 0 <= Ends(order, t)[i] < |order|
    ensures forall k :: 0 <= k < |order| && !(t.front <= k < |order| - t.back) ==> order[k] in Ends(order, t)
  {
    var ends := Ends(order, t);
    assert forall k :: 0 <= k < t.front ==> ends[k] == order[k];
    forall k | |order| - t.back <= k < |order| ensures order[k] in ends {
      assert ends[t.front + (k - (|order| - t.back))] == order[k];
    }
  }

  lemma UnselectedIsInside(order: seq<nat>, t: Span, r: nat)
    requires IsPermutation(order, |order|) && t.Size() <= |order| && r < |order| && r !in Ends(order, t)
    ensures exists i :: t.front <= i < |order| - t.back && order[i] == r
  {
    PermutationIsOnto(order, |order|);
    EndsElements(order, t);
    assert r in order;
    var i :| 0 <= i < |order| && order[i] == r;
  }

  /** The order and the span behind a selection. */
  lemma SelectionParts(rankCosts: seq<real>, avg: real, nmax: nat, selected: seq<int>)
    returns (order: seq<nat>, t: Span)
    requires IsSelection(rankCosts, avg, nmax, selected) && 0 < nmax <= |rankCosts|
    ensures IsDescendingOrder(rankCosts, order)
    ensures 0 < t.Size() <= nmax && selected == Ends(order, t)
    ensures || t.Size() == nmax || SpanSum(Permute(rankCosts, order), t) == Times(t.Size(), avg)
            || RestIsBalanced(Permute(rankCosts, order), avg, t)
  {
    order :| IsSelectionBy(rankCosts, avg, nmax, selected, order);
    t := Grow(Permute(rankCosts, order), avg, nmax, Span(1, 0));
    GrowStops(Permute(rankCosts, order), avg, nmax, Span(1, 0));
  }

  ghost predicate UnselectedAreBalanced(rankCosts: seq<real>, avg: real, selected: seq<int>)
  {
    forall r :: 0 <= r < |rankCosts| && r !in selected ==>
             -(avg * DIFF_THRESHOLD) < rankCosts[r] - avg < avg * DIFF_THRESHOLD
  }

  lemma RestMeansUnselected(rankCosts: seq<real>, avg: real, order: seq<nat>, t: Span)
    requires IsPermutation(order, |rankCosts|) && t.Size() <= |order|
    requires RestIsBalanced(Permute(rankCosts, order), avg, t)
    ensures UnselectedAreBalanced(rankCosts, avg, Ends(order, t))
  {
    var sorted := Permute(rankCosts, order);
    forall r | 0 <= r < |rankCosts| && r !in Ends(order, t)
      ensures -(avg * DIFF_THRESHOLD) < rankCosts[r] - avg < avg * DIFF_THRESHOLD
    {
      UnselectedIsInside(order, t, r);
      var i :| t.front <= i < |order| - t.back && order[i] == r;
      assert sorted[i] == rankCosts[r];
    }
  }

  /** What a selection guarantees. */
  ghost predicate SoundSelection(rankCosts: seq<real>, avg: real, nmax: nat, selected: seq<int>)
  {
    && Distinct(selected) && 0 < |selected| <= nmax
    && (forall i :: 0 <= i < |selected| ==> 0 <= selected[i] < |rankCosts|)
    && (|selected| < nmax ==>
          SelectedSum(rankCosts, selected) == Times(|selected|, avg) || UnselectedAreBalanced(rankCosts, avg, selected))
  }

  lemma SpanIsSound(rankCosts: seq<real>, avg: real, nmax: nat, order: seq<nat>, t: Span)
    requires IsDescendingOrder(rankCosts, order) && 0 < t.Size() <= nmax <= |rankCosts|
    requires || t.Size() == nmax || SpanSum(Permute(rankCosts, order), t) == Times(t.Size(), avg)
             || RestIsBalanced(Permute(rankCosts, order), avg, t)
    ensures SoundSelection(rankCosts, avg, nmax, Ends(order, t))
  {
    EndsElements(order, t);
    EndsSum(rankCosts, order, t);
    if RestIsBalanced(Permute(rankCosts, order), avg, t) {
      RestMeansUnselected(rankCosts, avg, order, t);
    }
  }

  /**
   At most nmax distinct ranks, at least one; fewer only when their mean is the average, or when every other rank is
   within the threshold of the average.
   */
  lemma SelectionIsSound(rankCosts: seq<real>, avg: real, nmax: nat, selected: seq<int>)
    requires IsSelection(rankCosts, avg, nmax, selected) && 0 < nmax <= |rankCosts|
    ensures SoundSelection(rankCosts, avg, nmax, selected)
  {
    var order, t := SelectionParts(rankCosts, avg, nmax, selected);
    SpanIsSound(rankCosts, avg, nmax, order, t);
  }

  /** GetLPTRanksV3. nmax <= 0 stands for a problem too small to rebalance. */
  method GetLPTRanks(costs: seq<real>, rankCosts: seq<real>, nmax: int) returns (selected: seq<int>)
    requires 0 < |rankCosts| && nmax <= |rankCosts|
    ensures IsSelection(rankCosts, Sum(costs) / |rankCosts| as real, nmax, selected)
  {
    if nmax <= 0 {
      return [];
    }
    var order := SortIndices(rankCosts);
    var total := Contiguous.Accumulate(costs);
    var avg := total / |rankCosts| as real;
    var t := GrowLoop(Permute(rankCosts, order), avg, nmax);
    selected := CollectEnds(order, t);
    assert IsSelectionBy(rankCosts, avg, nmax, selected, order);
  }

  method CollectEnds(order: seq<nat>, t: Span) returns (selected: seq<int>)
    requires t.Size() <= |order|
    ensures selected == Ends(order, t)
  {
    selected := [];
    for i := 0 to t.front
      invariant selected == order[..i]
    {
      selected := selected + [order[i]];
    }
    ghost var loaded := selected;
    var lo := |order| - t.back;
    for i := lo to |order|
      invariant selected == loaded + order[lo..i]
    {
      assert order[lo..i + 1] == order[lo..i] + [order[i]];
      selected := selected + [order[i]];
    }
    assert order[lo..|order|] == order[lo..];
  }

  /** One step of the growing rule, as the loop takes it. */
  lemma GrowStep(sorted: seq<real>, avg: real, nmax: nat, s: Span)
    requires 0 < s.Size() < nmax <= |sorted|
    ensures var mean, more := SpanMean(sorted, s), Grow(sorted, avg, nmax, s);
            && (mean == avg ==> more == s)
            && (mean != avg && NearlyBalanced(sorted, avg, s) ==> more == Widen(sorted, avg, s))
            && (mean != avg && !NearlyBalanced(sorted, avg, s) ==>
                  more == Grow(sorted, avg, nmax, Widen(sorted, avg, s)))
  {
  }

  /** The widening loop, with the running sum of the source. */
  method GrowLoop(sorted: seq<real>, avg: real, nmax: nat) returns (t: Span)
    requires 0 < nmax <= |sorted|
    ensures t == Grow(sorted, avg, nmax, Span(1, 0)) && t.Size() <= nmax
  {
    var front, back := 1, 0;
    var sumLpt := sorted[0];
    var avgLpt := sorted[0];
    ghost var goal := Grow(sorted, avg, nmax, Span(1, 0));
    StartSum(sorted);
    while front + back < nmax
      invariant 0 < front && 0 <= back && front + back <= nmax
      invariant sumLpt == SpanSum(sorted, Span(front, back)) && avgLpt == SpanMean(sorted, Span(front, back))
      invariant goal == Grow(sorted, avg, nmax, Span(front, back))
    {
      var costFront, costBack := sorted[front], sorted[|sorted| - 1 - back];
      var diffFront, diffBack := costFront - avg, avg - costBack;
      ghost var s := Span(front, back);
      WidenSum(sorted, avg, s);
      GrowStep(sorted, avg, nmax, s);
      if avgLpt > avg {
        sumLpt := sumLpt + costBack;
        back := back + 1;
      } else if avgLpt < avg {
        sumLpt := sumLpt + costFront;
        front := front + 1;
      } else {
        break;
      }
      avgLpt := sumLpt / (front + back) as real;
      assert Span(front, back) == Widen(sorted, avg, s);
      var threshold := avg * DIFF_THRESHOLD;
      if diffFront < threshold && diffBack < threshold {
        t := Span(front, back);
        return;
      }
    }
    t := Span(front, back);
  }

  lemma StartSum(sorted: seq<real>)
    requires 0 < |sorted|
    ensures SpanSum(sorted, Span(1, 0)) == sorted[0]
  {
    assert sorted[..1] == [sorted[0]];
    SumSingleton(sorted[0]);
  }

  /** The running sum stays exact. */
  lemma WidenSum(sorted: seq<real>, avg: real, s: Span)
    requires 0 < s.Size() < |sorted|
    ensures SpanSum(sorted, s.(back := s.back + 1)) == SpanSum(sorted, s) + sorted[|sorted| - 1 - s.back]
    ensures SpanSum(sorted, s.(front := s.front + 1)) == SpanSum(sorted, s) + sorted[s.front]
  {
    var n := |sorted|;
    assert sorted[..s.front + 1][..s.front] == sorted[..s.front];
    assert sorted[n - 1 - s.back..] == [sorted[n - 1 - s.back]] + sorted[n - s.back..];
    SumAppend([sorted[n - 1 - s.back]], sorted[n - s.back..]);
    SumSingleton(sorted[n - 1 - s.back]);
  }

  // ----- the blocks of the chosen ranks -----

  function MaxRank(ranks: seq<int>): (m: int)
    requires |ranks| > 0
    ensures m in ranks && forall i :: 0 <= i < |ranks| ==> ranks[i] <= m
  {
    var n := |ranks|;
    if n == 1 then ranks[0]
    else
      var m := MaxRank(ranks[..n - 1]);
      assert forall i :: 0 <= i < n - 1 ==> ranks[i] == ranks[..n - 1][i] <= m;
      if m < ranks[n - 1] then ranks[n - 1] else m
  }

  /** false stands for an index past the end of the selection map: a selected rank above every rank in use. */
  method GetBlocksForRanks(ranks: seq<int>, selected: seq<int>) returns (ok: bool, blocks: seq<nat>)
    requires |ranks| > 0 && forall b :: 0 <= b < |ranks| ==> 0 <= ranks[b]
    requires forall i :: 0 <= i < |selected| ==> 0 <= selected[i]
    ensures ok <==> forall i :: 0 <= i < |selected| ==> selected[i] <= MaxRank(ranks)
    ensures ok ==> blocks == BlocksOn(ranks, selected)
  {
    blocks := [];
    var maxRank := MaxRank(ranks);
    var isSelected := new bool[maxRank + 1](_ => false);
    for i := 0 to |selected|
      invariant forall k :: 0 <= k < i ==> selected[k] <= maxRank
      invariant forall r :: 0 <= r <= maxRank ==> (isSelected[r] <==> r in selected[..i])
    {
      if selected[i] > maxRank {
        return false, blocks;
      }
      isSelected[selected[i]] := true;
    }
    assert selected[..|selected|] == selected;
    for b := 0 to |ranks|
      invariant blocks == BlocksOn(ranks[..b], selected)
    {
      assert ranks[..b + 1][..b] == ranks[..b];
      if isSelected[ranks[b]] {
        blocks := blocks + [b];
      }
    }
    assert ranks[..|ranks|] == ranks;
    return true, blocks;
  }

  // ----- one rebalanced solution -----

  /** The load of every rank, as rank_times and rank_costs_ hold it. */
  method RankTimes(costs: seq<real>, ranks: seq<int>, nranks: nat) returns (times: array<real>)
    requires IsPlacement(ranks, |costs|, nranks)
    ensures fresh(times) && times.Length == nranks
    ensures forall r :: 0 <= r < nranks ==> times[r] == Load(costs, ranks, r)
  {
    times := new real[nranks](_ => 0.0);
    assert costs[..0] == [] && ranks[..0] == [];
    for b := 0 to |costs|
      invariant forall r :: 0 <= r < nranks ==> times[r] == Load(costs[..b], ranks[..b], r)
    {
      assert costs[..b + 1][..b] == costs[..b] && ranks[..b + 1][..b] == ranks[..b];
      times[ranks[b]] := times[ranks[b]] + costs[b];
    }
    assert costs[..|costs|] == costs && ranks[..|ranks|] == ranks;
  }

  /** rank_time_max: the loads truncated to int, then their maximum. */
  ghost predicate IsTruncatedMax(costs: seq<real>, ranks: seq<int>, nranks: nat, m: int)
    requires |costs| == |ranks|
  {
    && (forall r :: 0 <= r < nranks ==> Load(costs, ranks, r).Floor <= m)
    && (exists r :: 0 <= r < nranks && Load(costs, ranks, r).Floor == m)
  }

  method ComputeCostMax(costs: seq<real>, ranks: seq<int>, nranks: nat) returns (m: int)
    requires IsPlacement(ranks, |costs|, nranks) && 0 < nranks && Nonnegative(costs)
    ensures IsTruncatedMax(costs, ranks, nranks, m)
  {
    var times := RankTimes(costs, ranks, nranks);
    m := times[0].Floor;
    for r := 0 to nranks
      invariant forall r' :: 0 <= r' < r ==> Load(costs, ranks, r').Floor <= m
      invariant exists r' :: 0 <= r' < nranks && Load(costs, ranks, r').Floor == m
    {
      if m < times[r].Floor {
        m := times[r].Floor;
      }
    }
  }

  datatype Solution = Solution(selected: seq<int>, ranks: seq<int>, costMax: int)

  /** result follows from start by rebalancing some at most nlpt ranks, chosen by GetLPTRanksV3. */
  ghost predicate IsSolution(costs: seq<real>, start: seq<int>, nranks: nat, nlpt: int, delta: real, s: Solution)
  {
    && |s.ranks| == |costs|
    && |s.selected| <= (if nlpt < 0 then 0 else nlpt) && (nlpt > 0 ==> |s.selected| > 0)
    && (forall i :: 0 <= i < |s.selected| ==> 0 <= s.selected[i] < nranks)
    && (exists a, order :: IsRebalanced(costs, start, s.ranks, s.selected, a, order, delta))
    && IsTruncatedMax(costs, s.ranks, nranks, s.costMax)
  }

  /** ranklist[blocks[i]] = selected[a[i]] for every rescheduled block. */
  method WriteSchedule(start: seq<int>, selected: seq<int>, blocks: seq<nat>, a: array<int>) returns (ranks: seq<int>)
    requires blocks == BlocksOn(start, selected) && a.Length == |blocks|
    requires forall i :: 0 <= i < a.Length ==> 0 <= a[i] < |selected|
    ensures ranks == Merge(start, selected, Relabel(a[..], selected))
  {
    BlocksOnMembers(start, selected);
    ranks := start;
    for i := 0 to |blocks|
      invariant |ranks| == |start|
      invariant forall b :: 0 <= b < |start| && start[b] !in selected ==> ranks[b] == start[b]
      invariant forall k :: 0 <= k < i ==> ranks[blocks[k]] == selected[a[k]]
    {
      assert blocks[i] in blocks;
      ranks := ranks[blocks[i] := selected[a[i]]];
    }
    MergeIsUnique(start, selected, Relabel(a[..], selected), ranks);
  }

  /** ComputePartialLPTSolution on a starting placement that leaves no rank out. */
  method ComputePartialSolution(costs: seq<real>, start: seq<int>, rankCosts: seq<real>, nranks: nat, nlpt: int,
                                delta: real)
    returns (s: Solution)
    requires 0 < nranks && nlpt <= nranks && Nonnegative(costs)
    requires IsPlacement(start, |costs|, nranks) && UsesEveryRank(start, nranks)
    requires |rankCosts| == nranks && forall r :: 0 <= r < nranks ==> rankCosts[r] == Load(costs, start, r)
    ensures IsSolution(costs, start, nranks, nlpt, delta, s)
    ensures IsSelection(rankCosts, Sum(costs) / nranks as real, nlpt, s.selected)
  {
    var selected := GetLPTRanks(costs, rankCosts, nlpt);
    if nlpt > 0 {
      SelectionIsSound(rankCosts, Sum(costs) / nranks as real, nlpt, selected);
    }
    assert nranks - 1 in start;
    var ok, blocks := GetBlocksForRanks(start, selected);
    BlocksOnMembers(start, selected);
    if |selected| == 0 && |blocks| > 0 {
      assert blocks[0] in blocks;
    }
    var costsLpt := Permute(costs, blocks);
    var a := AssignBlocksLPT(costsLpt, |selected|, delta);
    ghost var order :| LptOutcome(costsLpt, a[..], order, |selected|, delta);
    LptIsPlacement(costsLpt, a[..], order, |selected|, delta);
    var ranks := WriteSchedule(start, selected, blocks, a);
    assert IsRebalanced(costs, start, ranks, selected, a[..], order, delta);
    SolutionIsPlacement(costs, start, ranks, selected, a[..], order, nranks, delta);
    var costMax := ComputeCostMax(costs, ranks, nranks);
    s := Solution(selected, ranks, costMax);
  }

  lemma SolutionIsPlacement(costs: seq<real>, start: seq<int>, result: seq<int>, selected: seq<int>, a: seq<int>,
                            order: seq<nat>, nranks: nat, delta: real)
    requires IsRebalanced(costs, start, result, selected, a, order, delta)
    requires IsPlacement(start, |costs|, nranks) && forall i :: 0 <= i < |selected| ==> 0 <= selected[i] < nranks
    ensures IsPlacement(result, |costs|, nranks)
  {
    RebalanceFrame(costs, start, result, selected, a, order, delta);
  }

  /** Frame of one solution: untouched blocks stay, the others stay within the selected ranks. */
  lemma SolutionFrame(costs: seq<real>, start: seq<int>, nranks: nat, nlpt: int, delta: real, s: Solution)
    requires IsSolution(costs, start, nranks, nlpt, delta, s)
    ensures |s.ranks| == |start| == |costs|
    ensures forall b :: 0 <= b < |start| ==>
              if start[b] in s.selected then s.ranks[b] in s.selected else s.ranks[b] == start[b]
    ensures |s.selected| == 0 ==> s.ranks == start
  {
    var a, order :| IsRebalanced(costs, start, s.ranks, s.selected, a, order, delta);
    RebalanceFrame(costs, start, s.ranks, s.selected, a, order, delta);
  }

  /** Bound of one solution: Graham's factor for as many ranks as were rebalanced. */
  lemma SolutionBound(costs: seq<real>, start: seq<int>, nranks: nat, nlpt: int, delta: real, s: Solution, bound: real)
    requires IsSolution(costs, start, nranks, nlpt, delta, s) && 0 < |s.selected|
    requires Nonnegative(costs) && 0.0 <= delta && |start| == |costs|
    requires 0.0 <= bound && MaxLoadAtMost(costs, start, nranks, bound)
    ensures MaxLoadAtMost(costs, s.ranks, nranks, LptLimit(|s.selected|, bound, delta))
  {
    var a, order :| IsRebalanced(costs, start, s.ranks, s.selected, a, order, delta);
    RebalanceBound(costs, start, s.ranks, s.selected, a, order, delta, nranks, bound);
  }

  // ----- the policy -----

  const CHUNK_SIZE := 512

  /** All costs above EPSILON, and ranks that fill whole chunks when there are many. */
  ghost predicate HasSafeStart(costs: seq<real>, nranks: nat)
  {
    && (forall b :: 0 <= b < |costs| ==> Chunkwise.EPSILON < costs[b])
    && (nranks <= CHUNK_SIZE || nranks % CHUNK_SIZE == 0)
  }

  /** The starting placement: CDP up to CHUNK_SIZE ranks, else chunked CDP, which needs ranks that fill whole chunks. */
  ghost predicate IsStart(costs: seq<real>, start: seq<int>, nranks: nat)
    requires 0 < nranks
  {
    if nranks <= CHUNK_SIZE then Improved(costs, nranks) == Some(start)
    else
      && nranks % CHUNK_SIZE == 0
      && ChunkedCdp.IsChunkedPlacement(ChunkedCdp.CdpPolicy(), costs, start, nranks, nranks / CHUNK_SIZE)
  }

  /** When there is one. */
  ghost predicate HasStart(costs: seq<real>, nranks: nat)
    requires 0 < nranks
  {
    if nranks <= CHUNK_SIZE then Improved(costs, nranks).Some?
    else
      && nranks % CHUNK_SIZE == 0
      && ChunkedCdp.CanPlace(ChunkedCdp.CdpPolicy(), costs, nranks, nranks / CHUNK_SIZE)
  }

  lemma SafeStart(costs: seq<real>, nranks: nat)
    requires 0 < nranks <= |costs| && HasSafeStart(costs, nranks)
    ensures HasStart(costs, nranks)
  {
    if nranks <= CHUNK_SIZE {
      ImprovedSucceeds(costs, nranks);
    } else {
      ChunkCount(nranks);
      ChunkedCdp.CdpPolicyIsCdp();
      ChunkedCdp.SafeInputSucceeds(ChunkedCdp.CdpPolicy(), costs, nranks, nranks / CHUNK_SIZE, 0);
    }
  }

  /** Either way the start is contiguous and leaves no rank out. */
  lemma StartIsContiguous(costs: seq<real>, start: seq<int>, nranks: nat)
    requires 0 < nranks <= |costs| && IsStart(costs, start, nranks)
    ensures IsFullContiguous(start, |costs|, nranks)
  {
    if nranks <= CHUNK_SIZE {
      ImprovedIsContiguous(costs, nranks);
    } else {
      ChunkCount(nranks);
      ChunkedCdp.CdpPolicyIsCdp();
      ChunkedCdp.ChunkedIsContiguous(costs, start, nranks, nranks / CHUNK_SIZE, ChunkedCdp.CdpPolicy());
    }
  }

  /** The first policy. false stands for an abort or an error code. */
  method StartPlacement(costs: seq<real>, ranklist: array<int>, nranks: nat) returns (ok: bool)
    requires 0 < nranks <= |costs| && Nonnegative(costs) && ranklist.Length == |costs|
    modifies ranklist
    ensures ok <==> HasStart(costs, nranks)
    ensures ok ==> IsStart(costs, ranklist[..], nranks)
  {
    if nranks <= CHUNK_SIZE {
      ok := AssignBlocksContigImproved(costs, ranklist, nranks);
    } else {
      ok := ChunkedStart(costs, ranklist, nranks);
    }
  }

  /** AssignBlocksCDPChunked with the default chunk size. */
  method ChunkedStart(costs: seq<real>, ranklist: array<int>, nranks: nat) returns (ok: bool)
    requires CHUNK_SIZE < nranks <= |costs| && Nonnegative(costs) && ranklist.Length == |costs|
    modifies ranklist
    ensures ok <==> HasStart(costs, nranks)
    ensures ok ==> IsStart(costs, ranklist[..], nranks)
  {
    if nranks % CHUNK_SIZE != 0 {
      return false;
    }
    ChunkCount(nranks);
    ChunkedCdp.CdpPolicyIsCdp();
    ok := ChunkedCdp.AssignBlocks(costs, ranklist, nranks, nranks / CHUNK_SIZE, ChunkedCdp.CdpPolicy());
  }

  lemma ChunkCount(nranks: nat)
    requires CHUNK_SIZE < nranks && nranks % CHUNK_SIZE == 0
    ensures 0 < nranks / CHUNK_SIZE && nranks % (nranks / CHUNK_SIZE) == 0
  {
    var k := nranks / CHUNK_SIZE;
    assert nranks == CHUNK_SIZE * k;
    MultipleHasNoRemainder(CHUNK_SIZE, k);
  }

  lemma MultipleHasNoRemainder(n: nat, k: nat)
    requires 0 < k
    ensures n * k % k == 0
  {
    var x := n * k;
    var d := n - x / k;
    SplitProduct(n, x / k, k);
    assert d * k == x % k;
    if d > 0 {
      ProductAtLeast(d, k);
    } else if d < 0 {
      ProductAtLeast(-d, k);
      SplitProduct(0, d, k);
    }
  }

  lemma SplitProduct(a: int, b: int, k: int)
    ensures (a - b) * k == a * k - b * k
  {
  }

  lemma {:induction false} ProductAtLeast(d: nat, k: nat)
    requires 0 < d
    ensures d * k >= k
  {
    if d > 1 {
      ProductAtLeast(d - 1, k);
      SplitProduct(d, 1, k);
    }
  }

  /** One call of ComputePartialLPTSolution: a solution whose ranks GetLPTRanksV3 selects from the start's loads. */
  ghost predicate IsPartial(costs: seq<real>, start: seq<int>, nranks: nat, nlpt: int, delta: real, s: Solution)
  {
    && 0 < nranks && |start| == |costs|
    && IsSolution(costs, start, nranks, nlpt, delta, s)
    && IsSelection(Loads(costs, start, nranks), Sum(costs) / nranks as real, nlpt, s.selected)
  }

  /** n halved k times. */
  function Halved(n: nat, k: nat): (h: nat)
    ensures h <= n
  {
    if k == 0 then n else Halved(n, k - 1) / 2
  }

  /** n doubled k times. */
  function Doubled(n: nat, k: nat): nat
    decreases k
  {
    if k == 0 then n else Doubled(2 * n, k - 1)
  }

  lemma {:induction false} DoubledMonotone(m: nat, n: nat, k: nat)
    requires m <= n
    ensures Doubled(m, k) <= Doubled(n, k)
    decreases k
  {
    if k > 0 {
      DoubledMonotone(2 * m, 2 * n, k - 1);
    }
  }

  /** The limit of alternative k is the quotient by 2^k, rounded down. */
  lemma {:induction false} HalvedIsQuotient(n: nat, k: nat)
    ensures Doubled(Halved(n, k), k) <= n < Doubled(Halved(n, k) + 1, k)
  {
    if k > 0 {
      var h := Halved(n, k - 1);
      HalvedIsQuotient(n, k - 1);
      DoubledMonotone(2 * (h / 2), h, k - 1);
      DoubledMonotone(h + 1, 2 * (h / 2 + 1), k - 1);
    }
  }

  /** Alternative k was accepted: half as many ranks as before, and a truncated maximum not above the main one. */
  ghost predicate IsAlternative(costs: seq<real>, start: seq<int>, nranks: nat, delta: real, trail: seq<Solution>,
                                k: nat)
    requires k < |trail|
  {
    && trail[k].costMax <= trail[0].costMax
    && IsPartial(costs, start, nranks, Halved(|trail[0].selected|, k), delta, trail[k])
  }

  /** The main solution and the alternatives accepted after it, in turn. */
  ghost predicate IsTrail(costs: seq<real>, start: seq<int>, nranks: nat, nlpt: int, delta: real, trail: seq<Solution>)
  {
    && |trail| > 0 && IsPartial(costs, start, nranks, nlpt, delta, trail[0])
    && forall k :: 0 < k < |trail| ==> IsAlternative(costs, start, nranks, delta, trail, k)
  }

  /** The loop is over: altMax alternatives were accepted, or the next one has a larger truncated maximum. */
  ghost predicate IsComplete(costs: seq<real>, start: seq<int>, nranks: nat, altMax: nat, delta: real,
                             trail: seq<Solution>)
    requires |trail| > 0
  {
    || |trail| == altMax + 1
    || (|trail| <= altMax && exists next :: IsRejected(costs, start, nranks, delta, trail, next))
  }

  ghost predicate IsRejected(costs: seq<real>, start: seq<int>, nranks: nat, delta: real, trail: seq<Solution>,
                             next: Solution)
    requires |trail| > 0
  {
    && trail[0].costMax < next.costMax
    && IsPartial(costs, start, nranks, Halved(|trail[0].selected|, |trail|), delta, next)
  }

  /** The policy's result: the last accepted solution. */
  ghost predicate IsCplxOutcome(costs: seq<real>, start: seq<int>, result: seq<int>, nranks: nat, nlpt: int,
                                altMax: nat, delta: real)
  {
    exists trail :: IsFullTrail(costs, start, nranks, nlpt, altMax, delta, trail) && Last(trail).ranks == result
  }

  ghost predicate IsFullTrail(costs: seq<real>, start: seq<int>, nranks: nat, nlpt: int, altMax: nat, delta: real,
                              trail: seq<Solution>)
  {
    IsTrail(costs, start, nranks, nlpt, delta, trail) && IsComplete(costs, start, nranks, altMax, delta, trail)
  }

  function Last(trail: seq<Solution>): Solution
    requires |trail| > 0
  {
    trail[|trail| - 1]
  }

  lemma TrailNext(costs: seq<real>, start: seq<int>, nranks: nat, nlpt: int, delta: real, trail: seq<Solution>,
                  next: Solution)
    requires IsTrail(costs, start, nranks, nlpt, delta, trail) && next.costMax <= trail[0].costMax
    requires IsPartial(costs, start, nranks, Halved(|trail[0].selected|, |trail|), delta, next)
    ensures IsTrail(costs, start, nranks, nlpt, delta, trail + [next])
  {
    var more := trail + [next];
    forall k | 0 < k < |more| ensures IsAlternative(costs, start, nranks, delta, more, k) {
      if k < |trail| {
        assert IsAlternative(costs, start, nranks, delta, trail, k);
      }
    }
  }

  /** One solution for the loads the caller has computed. */
  method NextSolution(costs: seq<real>, start: seq<int>, rankCosts: seq<real>, nranks: nat, nlpt: int, delta: real)
    returns (s: Solution)
    requires 0 < nranks && nlpt <= nranks && Nonnegative(costs)
    requires IsPlacement(start, |costs|, nranks) && UsesEveryRank(start, nranks)
    requires rankCosts == Loads(costs, start, nranks)
    ensures IsPartial(costs, start, nranks, nlpt, delta, s)
  {
    s := ComputePartialSolution(costs, start, rankCosts, nranks, nlpt, delta);
  }

  /** The main solution, then the alternatives. */
  method Improve(costs: seq<real>, start: seq<int>, rankCosts: seq<real>, nranks: nat, nlpt: int, altMax: nat,
                 delta: real)
    returns (ranks: seq<int>)
    requires 0 < nranks && nlpt <= nranks && Nonnegative(costs)
    requires IsPlacement(start, |costs|, nranks) && UsesEveryRank(start, nranks)
    requires rankCosts == Loads(costs, start, nranks)
    ensures IsCplxOutcome(costs, start, ranks, nranks, nlpt, altMax, delta)
  {
    var main := NextSolution(costs, start, rankCosts, nranks, nlpt, delta);
    var best := main;
    var nlptAlt := |main.selected|;
    ghost var trail := [main];
    ghost var rejected := false;
    for alt := 0 to altMax
      invariant |trail| == alt + 1 && trail[0] == main && trail[alt] == best && !rejected
      invariant IsTrail(costs, start, nranks, nlpt, delta, trail)
      invariant nlptAlt == Halved(|main.selected|, alt)
    {
      var next := NextSolution(costs, start, rankCosts, nranks, nlptAlt / 2, delta);
      if next.costMax <= main.costMax {
        TrailNext(costs, start, nranks, nlpt, delta, trail, next);
        trail := trail + [next];
        best := next;
        nlptAlt := nlptAlt / 2;
      } else {
        rejected := true;
        assert IsRejected(costs, start, nranks, delta, trail, next);
        break;
      }
    }
    assert IsFullTrail(costs, start, nranks, nlpt, altMax, delta, trail);
    ranks := best.ranks;
  }

  /** AssignBlocksV2; start is the placement the first policy wrote. */
  method AssignBlocksV2(costs: seq<real>, ranklist: array<int>, nranks: nat, nlpt: int, altMax: nat, delta: real)
    returns (ok: bool, ghost start: seq<int>)
    requires 0 < nranks <= |costs| && nlpt <= nranks && Nonnegative(costs) && ranklist.Length == |costs|
    modifies ranklist
    ensures ok <==> HasStart(costs, nranks)
    ensures ok ==> IsStart(costs, start, nranks)
    ensures ok ==> IsCplxOutcome(costs, start, ranklist[..], nranks, nlpt, altMax, delta)
  {
    ok := StartPlacement(costs, ranklist, nranks);
    start := ranklist[..];
    if ok {
      StartIsContiguous(costs, start, nranks);
      var times := RankTimes(costs, ranklist[..], nranks);
      assert times[..] == Loads(costs, start, nranks);
      var best := Improve(costs, ranklist[..], times[..], nranks, nlpt, altMax, delta);
      OutcomeLength(costs, start, best, nranks, nlpt, altMax, delta);
      Overwrite(ranklist, best);
    }
  }

  /** ranklist = ranklist_best. */
  method Overwrite(ranklist: array<int>, ranks: seq<int>)
    requires |ranks| == ranklist.Length
    modifies ranklist
    ensures ranklist[..] == ranks
  {
    for i := 0 to ranklist.Length
      invariant forall k :: 0 <= k < i ==> ranklist[k] == ranks[k]
    {
      ranklist[i] := ranks[i];
    }
  }

  lemma OutcomeLength(costs: seq<real>, start: seq<int>, result: seq<int>, nranks: nat, nlpt: int, altMax: nat,
                      delta: real)
    requires IsCplxOutcome(costs, start, result, nranks, nlpt, altMax, delta)
    ensures |result| == |costs|
  {
    var chosen := ChosenSolution(costs, start, result, nranks, nlpt, altMax, delta);
  }

  /** Each accepted alternative at least halves the ranks allowed: the k-th has at most 1/2^k of the main one's. */
  lemma TrailShrinks(costs: seq<real>, start: seq<int>, nranks: nat, nlpt: int, delta: real, trail: seq<Solution>,
                     k: nat)
    requires IsTrail(costs, start, nranks, nlpt, delta, trail) && k < |trail|
    ensures Doubled(|trail[k].selected|, k) <= |trail[0].selected|
  {
    if k > 0 {
      assert IsAlternative(costs, start, nranks, delta, trail, k);
      HalvedIsQuotient(|trail[0].selected|, k);
      DoubledMonotone(|trail[k].selected|, Halved(|trail[0].selected|, k), k);
    }
  }

  /** The solution a trail ends with. */
  lemma LastSolution(costs: seq<real>, start: seq<int>, nranks: nat, nlpt: int, delta: real, trail: seq<Solution>)
    requires IsTrail(costs, start, nranks, nlpt, delta, trail)
    ensures var chosen := Last(trail);
            && IsSolution(costs, start, nranks, |chosen.selected|, delta, chosen)
            && |chosen.selected| <= (if nlpt < 0 then 0 else nlpt) && chosen.costMax <= trail[0].costMax
  {
    var k := |trail| - 1;
    if k > 0 {
      assert IsAlternative(costs, start, nranks, delta, trail, k);
    }
  }

  lemma ChosenSolution(costs: seq<real>, start: seq<int>, result: seq<int>, nranks: nat, nlpt: int, altMax: nat,
                       delta: real)
    returns (chosen: Solution)
    requires IsCplxOutcome(costs, start, result, nranks, nlpt, altMax, delta)
    ensures IsSolution(costs, start, nranks, |chosen.selected|, delta, chosen)
    ensures chosen.ranks == result && |chosen.selected| <= if nlpt < 0 then 0 else nlpt
  {
    var trail :| IsFullTrail(costs, start, nranks, nlpt, altMax, delta, trail) && Last(trail).ranks == result;
    LastSolution(costs, start, nranks, nlpt, delta, trail);
    chosen := Last(trail);
  }

  lemma GrahamFactorMonotone(k: nat, m: nat)
    requires 0 < k <= m
    ensures GrahamFactor(k) <= GrahamFactor(m)
  {
    var a, b := 3.0 * k as real, 3.0 * m as real;
    assert 0.0 < a <= b;
    assert 1.0 / b <= 1.0 / a;
  }

  lemma SeedSpreadMonotone(k: nat, m: nat, delta: real)
    requires 0 < k <= m && 0.0 <= delta
    ensures 0.0 <= SeedSpread(k, delta) <= SeedSpread(m, delta)
  {
    SeedOrder(delta, (k - 1) as real, (m - 1) as real);
    SeedOrder(delta, 0.0, (k - 1) as real);
  }

  lemma LptLimitMonotone(k: nat, m: nat, bound: real, delta: real)
    requires 0 < k <= m && 0.0 <= delta && 0.0 <= bound
    ensures bound <= LptLimit(k, bound, delta) <= LptLimit(m, bound, delta)
  {
    LptLimitAtLeast(k, bound, delta);
    GrahamFactorMonotone(k, m);
    SeedSpreadMonotone(k, m, delta);
    var f, g := GrahamFactor(k), GrahamFactor(m);
    assert f * bound <= g * bound;
  }

  /**
   Main result on CPLX. Whichever alternative wins, the maximum load is at most Graham's factor for the ranks allowed
   times the starting placement's, plus their seed spread; with no ranks allowed the start stays as it is.
   */
  lemma CplxBound(costs: seq<real>, start: seq<int>, result: seq<int>, nranks: nat, nlpt: int, altMax: nat, delta: real,
                  bound: real)
    requires IsCplxOutcome(costs, start, result, nranks, nlpt, altMax, delta)
    requires Nonnegative(costs) && 0.0 <= delta && |start| == |costs|
    requires 0.0 <= bound && MaxLoadAtMost(costs, start, nranks, bound)
    ensures |result| == |costs|
    ensures nlpt > 0 ==> MaxLoadAtMost(costs, result, nranks, LptLimit(nlpt, bound, delta))
    ensures nlpt <= 0 ==> result == start
  {
    var chosen := ChosenSolution(costs, start, result, nranks, nlpt, altMax, delta);
    var k := |chosen.selected|;
    if k > 0 {
      SolutionBound(costs, start, nranks, k, delta, chosen, bound);
      LptLimitMonotone(k, nlpt, bound, delta);
    } else {
      SolutionFrame(costs, start, nranks, k, delta, chosen);
      if nlpt > 0 {
        LptLimitMonotone(1, nlpt, bound, delta);
      }
    }
  }
}
