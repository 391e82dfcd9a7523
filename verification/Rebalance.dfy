/**
 Rebalancing the blocks of some ranks with LPT (lb/src/lb_cplx.cc, PartialLPTSolution): blocks on selected ranks are
 redistributed among them, every other block stays.
 */
module Rebalance {
  import opened Sums
  import opened Placement
  import opened Lpt

  /** The blocks on the selected ranks, in increasing order. */
  function BlocksOn(ranks: seq<int>, selected: seq<int>): (blocks: seq<nat>)
    ensures forall i :: 0 <= i < |blocks| ==> blocks[i] < |ranks|
  {
    var n := |ranks|;
    if n == 0 then []
    else if ranks[n - 1] in selected then BlocksOn(ranks[..n - 1], selected) + [n - 1]
    else BlocksOn(ranks[..n - 1], selected)
  }

  /** The placement in which the selected blocks, in increasing order, get the given ranks. */
  function Merge(ranks: seq<int>, selected: seq<int>, labels: seq<int>): (merged: seq<int>)
    requires |labels| == |BlocksOn(ranks, selected)|
    ensures |merged| == |ranks|
  {
    var n := |ranks|;
    if n == 0 then []
    else if ranks[n - 1] in selected then
      Merge(ranks[..n - 1], selected, labels[..|labels| - 1]) + [labels[|labels| - 1]]
    else Merge(ranks[..n - 1], selected, labels) + [ranks[n - 1]]
  }

  /** BlocksOn is exactly the blocks on selected ranks, each once. */
  lemma {:induction false} BlocksOnMembers(ranks: seq<int>, selected: seq<int>)
    ensures forall b :: 0 <= b < |ranks| ==> (ranks[b] in selected <==> b in BlocksOn(ranks, selected))
    ensures forall i, j :: 0 <= i < j < |BlocksOn(ranks, selected)| ==>
              BlocksOn(ranks, selected)[i] < BlocksOn(ranks, selected)[j]
  {
    var n := |ranks|;
    if n > 0 {
      BlocksOnMembers(ranks[..n - 1], selected);
    }
  }

  /** Where a merged placement puts each block. */
  lemma {:induction false} MergeAt(ranks: seq<int>, selected: seq<int>, labels: seq<int>)
    requires |labels| == |BlocksOn(ranks, selected)|
    ensures forall b :: 0 <= b < |ranks| && ranks[b] !in selected ==> Merge(ranks, selected, labels)[b] == ranks[b]
    ensures forall i :: 0 <= i < |labels| ==> Merge(ranks, selected, labels)[BlocksOn(ranks, selected)[i]] == labels[i]
  {
    var n := |ranks|;
    if n > 0 {
      if ranks[n - 1] in selected {
        MergeAt(ranks[..n - 1], selected, labels[..|labels| - 1]);
      } else {
        MergeAt(ranks[..n - 1], selected, labels);
      }
    }
  }

  /** Those two facts determine the placement. */
  lemma MergeIsUnique(ranks: seq<int>, selected: seq<int>, labels: seq<int>, result: seq<int>)
    requires |labels| == |BlocksOn(ranks, selected)| && |result| == |ranks|
    requires forall b :: 0 <= b < |ranks| && ranks[b] !in selected ==> result[b] == ranks[b]
    requires forall i :: 0 <= i < |labels| ==> result[BlocksOn(ranks, selected)[i]] == labels[i]
    ensures result == Merge(ranks, selected, labels)
  {
    BlocksOnMembers(ranks, selected);
    MergeAt(ranks, selected, labels);
    var blocks := BlocksOn(ranks, selected);
    forall b | 0 <= b < |ranks| ensures result[b] == Merge(ranks, selected, labels)[b] {
      if ranks[b] in selected {
        assert b in blocks;
        var i :| 0 <= i < |blocks| && blocks[i] == b;
      }
    }
  }

  // ----- loads -----

  lemma PermuteAppend<T>(s: seq<T>, order: seq<nat>, last: nat)
    requires forall k :: 0 <= k < |order| ==> order[k] < |s|
    requires last < |s|
    ensures Permute(s, order + [last]) == Permute(s, order) + [s[last]]
  {
  }

  /** The last block of a merged placement. */
  lemma MergeStep(ranks: seq<int>, selected: seq<int>, labels: seq<int>)
    requires |ranks| > 0 && |labels| == |BlocksOn(ranks, selected)|
    ensures var n := |ranks| - 1;
            var blocks := BlocksOn(ranks[..n], selected);
            if ranks[n] in selected then
              && |labels| == |blocks| + 1 && BlocksOn(ranks, selected) == blocks + [n]
              && Merge(ranks, selected, labels) == Merge(ranks[..n], selected, labels[..|blocks|]) + [labels[|blocks|]]
            else
              && |labels| == |blocks| && BlocksOn(ranks, selected) == blocks
              && Merge(ranks, selected, labels) == Merge(ranks[..n], selected, labels) + [ranks[n]]
  {
  }

  lemma LoadLast(costs: seq<real>, ranks: seq<int>, c: real, rank: int, r: int)
    requires |costs| == |ranks|
    ensures Load(costs + [c], ranks + [rank], r) == Load(costs, ranks, r) + if rank == r then c else 0.0
  {
    assert (costs + [c])[..|costs|] == costs && (ranks + [rank])[..|ranks|] == ranks;
  }

  /** One more block on a selected rank, or on another one. */
  lemma MoreLoad(costs: seq<real>, ranks: seq<int>, merged: seq<int>, sub: seq<real>, labels: seq<int>,
                 selected: seq<int>, c: real, rank: int, mark: int, r: int)
    requires |costs| == |ranks| == |merged| && |sub| == |labels|
    requires Load(costs, merged, r) == if r in selected then Load(sub, labels, r) else Load(costs, ranks, r)
    ensures rank in selected && mark in selected ==>
              Load(costs + [c], merged + [mark], r)
              == if r in selected then Load(sub + [c], labels + [mark], r) else Load(costs + [c], ranks + [rank], r)
    ensures rank !in selected ==>
              Load(costs + [c], merged + [rank], r)
              == if r in selected then Load(sub, labels, r) else Load(costs + [c], ranks + [rank], r)
  {
    LoadLast(costs, merged, c, mark, r);
    LoadLast(costs, merged, c, rank, r);
    LoadLast(sub, labels, c, mark, r);
    LoadLast(costs, ranks, c, rank, r);
  }

  /** A selected rank carries what its new blocks cost; any other carries what it did. */
  lemma {:induction false} MergeLoad(costs: seq<real>, ranks: seq<int>, selected: seq<int>, labels: seq<int>, r: int)
    requires |costs| == |ranks| && |labels| == |BlocksOn(ranks, selected)|
    requires forall i :: 0 <= i < |labels| ==> labels[i] in selected
    ensures Load(costs, Merge(ranks, selected, labels), r)
            == if r in selected then Load(Permute(costs, BlocksOn(ranks, selected)), labels, r)
               else Load(costs, ranks, r)
  {
    if |ranks| > 0 {
      var n := |ranks| - 1;
      var c', r' := costs[..n], ranks[..n];
      var blocks' := BlocksOn(r', selected);
      MergeStep(ranks, selected, labels);
      assert costs == c' + [costs[n]] && ranks == r' + [ranks[n]];
      var sub := Permute(c', blocks');
      assert Permute(costs, blocks') == sub;
      var k := |blocks'|;
      var l' := labels[..k];
      var mark := if k < |labels| then labels[k] else 0;
      MergeLoad(c', r', selected, l', r);
      MoreLoad(c', r', Merge(r', selected, l'), sub, l', selected, costs[n], ranks[n], mark, r);
      if ranks[n] in selected {
        PermuteAppend(costs, blocks', n);
        assert labels == l' + [mark];
      } else {
        assert labels == l';
      }
    }
  }

  /** Renaming ranks one to one renames loads. */
  lemma {:induction false} RelabelLoad(costs: seq<real>, a: seq<int>, selected: seq<int>, labels: seq<int>, q: nat)
    requires |costs| == |a| == |labels| && Distinct(selected) && q < |selected|
    requires forall i :: 0 <= i < |a| ==> 0 <= a[i] < |selected| && labels[i] == selected[a[i]]
    ensures Load(costs, labels, selected[q]) == Load(costs, a, q)
  {
    var n := |costs|;
    if n > 0 {
      RelabelLoad(costs[..n - 1], a[..n - 1], selected, labels[..n - 1], q);
    }
  }

  function Relabel(a: seq<int>, selected: seq<int>): (labels: seq<int>)
    requires forall i :: 0 <= i < |a| ==> 0 <= a[i] < |selected|
    ensures |labels| == |a| && forall i :: 0 <= i < |a| ==> labels[i] == selected[a[i]]
  {
    seq(|a|, i requires 0 <= i < |a| => selected[a[i]])
  }

  function IndexOf(s: seq<int>, x: int): (i: nat)
    requires x in s
    ensures i < |s| && s[i] == x
  {
    if s[0] == x then 0 else 1 + IndexOf(s[1..], x)
  }

  // ----- the rebalanced placement -----

  /** result is start with the blocks of the selected ranks rescheduled by some run of LPT. */
  ghost predicate IsRebalanced(costs: seq<real>, start: seq<int>, result: seq<int>, selected: seq<int>, a: seq<int>,
                               order: seq<nat>, delta: real)
  {
    && |costs| == |start|
    && Distinct(selected)
    && LptOutcome(Permute(costs, BlocksOn(start, selected)), a, order, |selected|, delta)
    && (forall i :: 0 <= i < |a| ==> 0 <= a[i] < |selected|)
    && result == Merge(start, selected, Relabel(a, selected))
  }

  /** The old placement of the selected blocks, as a competitor among the selected ranks. */
  lemma OldPlacementCompetes(costs: seq<real>, start: seq<int>, selected: seq<int>, bound: real)
    returns (competitor: seq<int>)
    requires |costs| == |start| && Distinct(selected)
    requires forall r :: r in selected ==> Load(costs, start, r) <= bound
    ensures IsPlacement(competitor, |BlocksOn(start, selected)|, |selected|)
    ensures MaxLoadAtMost(Permute(costs, BlocksOn(start, selected)), competitor, |selected|, bound)
  {
    var blocks := BlocksOn(start, selected);
    BlocksOnMembers(start, selected);
    var labels := Permute(start, blocks);
    forall i | 0 <= i < |blocks| ensures labels[i] in selected {
      assert blocks[i] in blocks;
    }
    competitor := seq(|blocks|, i requires 0 <= i < |blocks| => IndexOf(selected, labels[i]));
    MergeIsUnique(start, selected, labels, start);
    forall q | 0 <= q < |selected| ensures Load(Permute(costs, blocks), competitor, q) <= bound {
      RelabelLoad(Permute(costs, blocks), competitor, selected, labels, q);
      MergeLoad(costs, start, selected, labels, selected[q]);
    }
  }

  /** Frame: blocks on other ranks stay, selected blocks stay within the selected ranks. */
  lemma RebalanceFrame(costs: seq<real>, start: seq<int>, result: seq<int>, selected: seq<int>, a: seq<int>,
                       order: seq<nat>, delta: real)
    requires IsRebalanced(costs, start, result, selected, a, order, delta)
    ensures |result| == |start|
    ensures forall b :: 0 <= b < |start| ==>
              if start[b] in selected then result[b] in selected else result[b] == start[b]
  {
    var labels := Relabel(a, selected);
    MergeAt(start, selected, labels);
    BlocksOnMembers(start, selected);
    var blocks := BlocksOn(start, selected);
    forall b | 0 <= b < |start| && start[b] in selected ensures result[b] in selected {
      assert b in blocks;
      var i :| 0 <= i < |blocks| && blocks[i] == b;
      assert result[b] == labels[i];
    }
  }

  /**
   Main result. Rebalancing k ranks never takes the maximum load above Graham's factor for k ranks times what it was,
   plus the spread of the queue seeds: the old placement is itself a schedule LPT competes with.
   */
  lemma RebalanceBound(costs: seq<real>, start: seq<int>, result: seq<int>, selected: seq<int>, a: seq<int>,
                       order: seq<nat>, delta: real, nranks: nat, bound: real)
    requires IsRebalanced(costs, start, result, selected, a, order, delta)
    requires 0 < |selected| && (forall i :: 0 <= i < |selected| ==> 0 <= selected[i] < nranks)
    requires Nonnegative(costs) && 0.0 <= delta && 0.0 <= bound && MaxLoadAtMost(costs, start, nranks, bound)
    ensures |result| == |costs|
    ensures MaxLoadAtMost(costs, result, nranks, LptLimit(|selected|, bound, delta))
  {
    var blocks, k := BlocksOn(start, selected), |selected|;
    var sub, labels := Permute(costs, blocks), Relabel(a, selected);
    var limit := LptLimit(k, bound, delta);
    var competitor := OldPlacementCompetes(costs, start, selected, bound);
    LptApproximation(sub, a, order, k, delta, competitor, bound);
    LptLimitAtLeast(k, bound, delta);
    forall r | 0 <= r < nranks ensures Load(costs, result, r) <= limit {
      MergeLoad(costs, start, selected, labels, r);
      if r in selected {
        var q := IndexOf(selected, r);
        RelabelLoad(sub, a, selected, labels, q);
        assert Load(sub, a, q) <= limit;
      }
    }
  }
}
