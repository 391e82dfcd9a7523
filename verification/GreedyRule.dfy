/**
 Where the greedy split closes a rank (lb/src/lb_policies.cc, AssignBlocksContiguous), in terms of the costs alone.
 */
module GreedyRule {
  import opened Sums
  import opened Placement
  import opened Contiguous

  /**
   Rank r, whose last block is the one before `end`, may begin with block b: it then carries its share of what ranks 0
   to r have to carry, or there is one block left for each rank below.
   */
  predicate MayBegin(costs: seq<real>, r: nat, end: nat, b: nat)
    requires b <= end <= |costs|
  {
    RangeSum(costs, b, end) >= Sum(costs[..end]) / (r + 1) as real || b == r
  }

  ghost predicate MayNotBegin(costs: seq<real>, r: nat, end: nat, from: nat)
    requires end <= |costs|
  {
    forall b :: from <= b < end ==> !MayBegin(costs, r, end, b)
  }

  /** The last block with which it may. */
  ghost predicate IsFirst(costs: seq<real>, r: nat, end: nat, b: nat)
  {
    b < end <= |costs| && MayBegin(costs, r, end, b) && MayNotBegin(costs, r, end, b + 1)
  }

  /** Where the blocks of rank r end when firsts are the first blocks of the ranks. */
  function EndOf(firsts: seq<nat>, r: nat, end: nat): nat
  {
    if r + 1 < |firsts| then firsts[r + 1] else end
  }

  /** Rank 0 begins with block 0, every other rank as late as it may, and p gives each rank the blocks in between. */
  ghost predicate AreFirsts(costs: seq<real>, p: seq<int>, end: nat, firsts: seq<nat>)
  {
    && 0 < |firsts| && firsts[0] == 0
    && (forall r :: 0 < r < |firsts| ==> IsFirst(costs, r, EndOf(firsts, r, end), firsts[r]))
    && (forall b :: 0 <= b < |p| ==> IsWithin(firsts, end, b, p[b]))
  }

  predicate IsWithin(firsts: seq<nat>, end: nat, b: nat, r: int)
  {
    0 <= r < |firsts| && firsts[r] <= b < EndOf(firsts, r, end)
  }

  /** The loop variables are what the rule speaks of; end is where the current rank's blocks end. */
  ghost predicate RankState(costs: seq<real>, s: LoopState, end: nat)
  {
    && s.left <= end <= |costs| && (s.left >= s.rank + 1 || s.rank == 0)
    && s.mine == RangeSum(costs, s.left, end) && s.remaining == Sum(costs[..end])
    && s.target == s.remaining / (s.rank + 1) as real
    && (s.rank > 0 ==> MayNotBegin(costs, s.rank, end, s.left))
  }

  lemma PrefixMinusRange(costs: seq<real>, b: nat, end: nat)
    requires b <= end <= |costs|
    ensures Sum(costs[..end]) - RangeSum(costs, b, end) == Sum(costs[..b])
  {
    RangeSplit(costs, 0, b, end);
  }

  lemma ClosesIffMay(costs: seq<real>, s: LoopState, end: nat)
    requires RankState(costs, s, end) && 0 < s.left
    ensures Closes(costs, s) <==> s.rank > 0 && MayBegin(costs, s.rank, end, s.left - 1)
  {
    RangeFront(costs, s.left - 1, end);
  }

  lemma NextCloses(costs: seq<real>, s: LoopState, end: nat, b: nat)
    requires RankState(costs, s, end) && s.left == b + 1 && Closes(costs, s)
    ensures RankState(costs, Next(costs, s), b)
  {
    var t := Next(costs, s);
    RangeFront(costs, b, end);
    PrefixMinusRange(costs, b, end);
    assert t.remaining == Sum(costs[..b]) && t.rank + 1 == s.rank;
    assert RangeSum(costs, b, b) == 0.0;
  }

  lemma NextGoesOn(costs: seq<real>, s: LoopState, end: nat)
    requires RankState(costs, s, end) && 0 < s.left && !Closes(costs, s)
    ensures RankState(costs, Next(costs, s), end)
  {
    ClosesIffMay(costs, s, end);
    RangeFront(costs, s.left - 1, end);
  }

  /** Closing rank r adds its first block to those of the lower ranks. */
  lemma AddFirst(costs: seq<real>, p: seq<int>, firsts: seq<nat>, end: nat, b: nat)
    requires AreFirsts(costs, p, b, firsts) && |p| == b && IsFirst(costs, |firsts|, end, b)
    ensures AreFirsts(costs, p + [|firsts|], end, firsts + [b])
  {
    var more := firsts + [b];
    forall r | 0 < r < |more| ensures IsFirst(costs, r, EndOf(more, r, end), more[r]) {
      if r < |firsts| {
        assert EndOf(more, r, end) == EndOf(firsts, r, b);
      }
    }
    forall i | 0 <= i <= b ensures IsWithin(more, end, i, (p + [|firsts|])[i]) {
      if i < b {
        assert IsWithin(firsts, b, i, p[i]);
      }
    }
  }

  /** One more block of the current rank. */
  lemma AddMore(costs: seq<real>, p: seq<int>, firsts: seq<nat>, end: nat, r: nat)
    requires AreFirsts(costs, p, end, firsts) && |firsts| == r + 1 && firsts[r] <= |p| < end
    ensures AreFirsts(costs, p + [r], end, firsts)
  {
    forall i | 0 <= i <= |p| ensures IsWithin(firsts, end, i, (p + [r])[i]) {
      if i < |p| {
        assert IsWithin(firsts, end, i, p[i]);
      }
    }
  }

  lemma GreedyStep(costs: seq<real>, s: LoopState) returns (p: seq<int>)
    requires 0 < s.left <= |costs| && GreedyFrom(costs, s).Some?
    ensures GreedyFrom(costs, Next(costs, s)) == Some(p) && GreedyFrom(costs, s) == Some(p + [s.rank])
  {
    p := GreedyFrom(costs, Next(costs, s)).value;
  }

  lemma {:induction false} RankRun(costs: seq<real>, s: LoopState, end: nat, p: seq<int>) returns (firsts: seq<nat>)
    requires RankState(costs, s, end) && GreedyFrom(costs, s) == Some(p) && 0 < end
    ensures |firsts| == s.rank + 1 && firsts[s.rank] <= s.left && |p| == s.left
    ensures AreFirsts(costs, p, end, firsts)
    decreases s.left
  {
    if s.left == 0 {
      firsts := [0];
    } else {
      var front := GreedyStep(costs, s);
      var b := s.left - 1;
      ClosesIffMay(costs, s, end);
      if Closes(costs, s) {
        NextCloses(costs, s, end, b);
        var lower := RankRun(costs, Next(costs, s), b, front);
        AddFirst(costs, front, lower, end, b);
        firsts := lower + [b];
      } else {
        NextGoesOn(costs, s, end);
        firsts := RankRun(costs, Next(costs, s), end, front);
        AddMore(costs, front, firsts, end, s.rank);
      }
    }
  }

  /**
   Main result: whenever the split does not abort, each rank above 0 begins with the last block with which it may, seen
   from where the next rank begins.
   */
  lemma GreedyFollowsRule(costs: seq<real>, nranks: nat) returns (firsts: seq<nat>)
    requires 0 < nranks && Greedy(costs, nranks).Some?
    ensures |firsts| == nranks && |Greedy(costs, nranks).value| == |costs|
    ensures AreFirsts(costs, Greedy(costs, nranks).value, |costs|, firsts)
  {
    assert costs[..|costs|] == costs;
    firsts := RankRun(costs, Start(costs, nranks), |costs|, Greedy(costs, nranks).value);
  }
}
