/**
 The greedy contiguous split (lb/src/lb_policies.cc, AssignBlocksContiguous). Blocks are handed out from the last
 to the first; a rank is closed when it has reached its share of what was left, or when one block per remaining
 rank is left.
 */
module Contiguous {
  import opened Sums
  import opened Placement

  /** The variables of the loop: blocks [0, left) are still to be handed out. */
  datatype LoopState = LoopState(left: nat, rank: nat, mine: real, remaining: real, target: real)

  /** One iteration. */
  function Next(costs: seq<real>, s: LoopState): LoopState
    requires 0 < s.left <= |costs|
  {
    var mine := s.mine + costs[s.left - 1];
    if Closes(costs, s) then
      LoopState(s.left - 1, s.rank - 1, 0.0, s.remaining - mine, (s.remaining - mine) / s.rank as real)
    else
      LoopState(s.left - 1, s.rank, mine, s.remaining, s.target)
  }

  /** The current rank takes block left - 1 as its last. */
  predicate Closes(costs: seq<real>, s: LoopState)
    requires 0 < s.left <= |costs|
  {
    (s.mine + costs[s.left - 1] >= s.target || s.left - 1 == s.rank) && s.rank > 0
  }

  /** What the loop writes to ranklist[..s.left]; None when it aborts. */
  function GreedyFrom(costs: seq<real>, s: LoopState): Option<seq<int>>
    requires s.left <= |costs|
    decreases s.left
  {
    if s.left == 0 then Some([])
    else if s.target == 0.0 then None
    else AppendTo(GreedyFrom(costs, Next(costs, s)), [s.rank])
  }

  function AppendTo(front: Option<seq<int>>, back: seq<int>): Option<seq<int>>
  {
    match front
    case None => None
    case Some(p) => Some(p + back)
  }

  function Start(costs: seq<real>, nranks: nat): LoopState
    requires nranks > 0
  {
    LoopState(|costs|, nranks - 1, 0.0, Sum(costs), Sum(costs) / nranks as real)
  }

  /** The whole policy; None stands for either fatal error. */
  function Greedy(costs: seq<real>, nranks: nat): Option<seq<int>>
    requires nranks > 0
  {
    if |costs| < nranks then None else GreedyFrom(costs, Start(costs, nranks))
  }

  method AssignBlocksContiguous(costs: seq<real>, ranklist: array<int>, nranks: nat) returns (ok: bool)
    requires nranks > 0 && ranklist.Length == |costs|
    modifies ranklist
    ensures ok <==> Greedy(costs, nranks).Some?
    ensures ok ==> ranklist[..] == Greedy(costs, nranks).value
  {
    if |costs| < nranks {
      return false;
    }
    var totalCost := Accumulate(costs);
    var rank: nat := nranks - 1;
    var target := totalCost / nranks as real;
    var mine := 0.0;
    var remaining := totalCost;
    var left := |costs|;
    AppendNothing(GreedyFrom(costs, LoopState(left, rank, mine, remaining, target)));
    assert ranklist[left..] == [];
    while left > 0
      invariant 0 <= left <= |costs|
      invariant Greedy(costs, nranks)
                == AppendTo(GreedyFrom(costs, LoopState(left, rank, mine, remaining, target)), ranklist[left..])
    {
      ghost var before, after := LoopState(left, rank, mine, remaining, target), ranklist[left..];
      var block := left - 1;
      if target == 0.0 {
        return false;
      }
      mine := mine + costs[block];
      ranklist[block] := rank;
      assert ranklist[block..] == [before.rank] + after;
      var filledEnough := mine >= target;
      var lowOnBlocks := block == rank;
      if (filledEnough || lowOnBlocks) && rank > 0 {
        rank := rank - 1;
        remaining := remaining - mine;
        mine := 0.0;
        target := remaining / (rank + 1) as real;
      }
      assert LoopState(block, rank, mine, remaining, target) == Next(costs, before);
      AppendTwice(GreedyFrom(costs, Next(costs, before)), [before.rank], after);
      left := block;
    }
    assert ranklist[0..] == ranklist[..];
    return true;
  }

  lemma AppendTwice(front: Option<seq<int>>, mid: seq<int>, back: seq<int>)
    ensures AppendTo(AppendTo(front, mid), back) == AppendTo(front, mid + back)
  {
    if front.Some? {
      assert front.value + mid + back == front.value + (mid + back);
    }
  }

  lemma AppendNothing(front: Option<seq<int>>)
    ensures AppendTo(front, []) == front
  {
    if front.Some? {
      assert front.value + [] == front.value;
    }
  }

  /** std::accumulate. */
  method Accumulate(s: seq<real>) returns (total: real)
    ensures total == Sum(s)
  {
    total := 0.0;
    for i := 0 to |s|
      invariant total == Sum(s[..i])
    {
      assert s[..i + 1][..i] == s[..i];
      total := total + s[i];
    }
    assert s[..|s|] == s;
  }

  // ----- guarantees -----

  /** No negative cost, and the block handed out last costs something. */
  ghost predicate Chargeable(costs: seq<real>)
  {
    Nonnegative(costs) && (|costs| > 0 ==> 0.0 < costs[0])
  }

  ghost predicate EachAtMost(costs: seq<real>, cmax: real)
  {
    forall b :: 0 <= b < |costs| ==> costs[b] <= cmax
  }

  /** Closing a filled rank does not raise the share of the others. */
  lemma ShareShrinks(rank: nat, share: real, next: real, mine: real)
    requires rank > 0 && mine >= share
    requires Times(rank, next) == Times(rank + 1, share) - mine
    ensures next <= share
  {
    if share < next {
      TimesOrder(rank, share, next);
    }
  }

  lemma ShareIsPositive(ranks: nat, share: real)
    requires ranks > 0 && 0.0 < Times(ranks, share)
    ensures 0.0 < share
  {
    if share <= 0.0 {
      TimesOrder(ranks, share, 0.0);
      TimesIsProduct(ranks, 0.0);
    }
  }

  lemma {:induction false} PrefixIsPositive(costs: seq<real>, k: nat)
    requires Chargeable(costs) && k <= |costs|
    ensures k > 0 ==> 0.0 < Sum(costs[..k])
    ensures k == 0 ==> Sum(costs[..k]) == 0.0
  {
    if k > 0 {
      PrefixIsPositive(costs, k - 1);
      assert costs[..k][..k - 1] == costs[..k - 1];
      assert k > 1 || costs[k - 1] == costs[0];
    }
  }

  /** Shares are exact, and either no share has grown or each remaining rank gets one block. */
  ghost predicate GreedyState(costs: seq<real>, s: LoopState, cap: real, cmax: real)
  {
    && s.left <= |costs|
    && Chargeable(costs) && EachAtMost(costs, cmax) && 0.0 <= s.mine && 0.0 < cap && 0.0 <= cmax
    && s.remaining == s.mine + Sum(costs[..s.left])
    && Times(s.rank + 1, s.target) == s.remaining
    && (s.left >= s.rank + 1 || s.rank == 0)
    && ((s.target <= cap && s.mine <= s.target) || (s.left == s.rank + 1 && s.mine == 0.0) || (s.left == 0
         && s.mine <= cmax))
  }

  /** The average is positive and adds up to the total. */
  lemma EvenShare(nranks: nat, total: real) returns (share: real)
    requires 0 < nranks && 0.0 < total
    ensures share == total / nranks as real
    ensures 0.0 < share && Times(nranks, share) == total
  {
    share := total / nranks as real;
    TimesOfQuotient(nranks, total);
    ShareIsPositive(nranks, share);
  }

  lemma StartState(costs: seq<real>, nranks: nat, share: real, cmax: real)
    requires 0 < nranks <= |costs| && Chargeable(costs) && EachAtMost(costs, cmax)
    requires 0.0 < share && Times(nranks, share) == Sum(costs)
    ensures GreedyState(costs, LoopState(|costs|, nranks - 1, 0.0, Sum(costs), share), share, cmax)
  {
    assert costs[..|costs|] == costs;
    assert costs[0] <= cmax;
  }

  lemma NextState(costs: seq<real>, s: LoopState, cap: real, cmax: real)
    requires GreedyState(costs, s, cap, cmax) && 0 < s.left
    ensures GreedyState(costs, Next(costs, s), cap, cmax)
    ensures s.target > 0.0
    ensures s.mine + costs[s.left - 1] <= cap + cmax || s.rank == 0
    ensures s.rank > 0 ==> s.left > 1
  {
    var k := s.left;
    var mine := s.mine + costs[k - 1];
    assert costs[..k][..k - 1] == costs[..k - 1];
    PrefixIsPositive(costs, k);
    ShareIsPositive(s.rank + 1, s.target);
    PrefixIsPositive(costs, k - 1);
    if s.rank > 0 {
      var next := (s.remaining - mine) / s.rank as real;
      TimesOfQuotient(s.rank, s.remaining - mine);
      if mine >= s.target {
        ShareShrinks(s.rank, s.target, next, mine);
      }
      if k - 1 > 0 {
        ShareIsPositive(s.rank, next);
      }
    } else {
      SmallTimes(s.target);
    }
  }

  /** What the rest of the loop writes. */
  ghost predicate GreedyGood(costs: seq<real>, k: nat, rank: nat, mine: real, bound: real, p: seq<int>)
  {
    && k <= |costs|
    && IsPlacement(p, k, rank + 1)
    && NonDecreasing(p)
    && (forall r :: 0 <= r < rank ==> r in p)
    && (k > 0 ==> p[k - 1] == rank)
    && (forall r :: 0 <= r < rank ==> Load(costs[..k], p, r) <= bound)
    && mine + Load(costs[..k], p, rank) <= bound
  }

  /** Adding the closing block of rank `rank` to what the rest of the loop writes. */
  lemma GreedyClose(costs: seq<real>, k: nat, rank: nat, mine: real, bound: real, p: seq<int>)
    requires 1 < k <= |costs| && 0 < rank
    requires GreedyGood(costs, k - 1, rank - 1, 0.0, bound, p)
    requires mine + costs[k - 1] <= bound
    ensures GreedyGood(costs, k, rank, mine, bound, p + [rank])
  {
    var p' := p + [rank];
    assert costs[..k][..k - 1] == costs[..k - 1] && p'[..k - 1] == p;
    assert forall i :: 0 <= i < |p| ==> p[i] <= p[k - 2];
    LoadOfAbsentRank(costs[..k - 1], p, rank);
    forall r | 0 <= r < rank ensures r in p' && Load(costs[..k], p', r) <= bound {
      if r == rank - 1 {
        assert p[k - 2] == r;
      }
      assert r in p;
    }
  }

  /** Adding a block of a rank that goes on. */
  lemma GreedyContinue(costs: seq<real>, k: nat, rank: nat, mine: real, bound: real, p: seq<int>)
    requires 0 < k <= |costs|
    requires GreedyGood(costs, k - 1, rank, mine + costs[k - 1], bound, p)
    ensures GreedyGood(costs, k, rank, mine, bound, p + [rank])
  {
    var p' := p + [rank];
    assert costs[..k][..k - 1] == costs[..k - 1] && p'[..k - 1] == p;
    forall r | 0 <= r < rank ensures r in p' && Load(costs[..k], p', r) <= bound {
      assert r in p;
      assert Load(costs[..k], p', r) == Load(costs[..k - 1], p, r);
    }
    assert Load(costs[..k], p', rank) == Load(costs[..k - 1], p, rank) + costs[k - 1];
    forall i, j | 0 <= i <= j < k ensures p'[i] <= p'[j] {
      if j == k - 1 {
        assert p'[i] <= rank;
      }
    }
  }

  /** One iteration on top of what the rest of the loop writes. */
  lemma GreedyAdd(costs: seq<real>, s: LoopState, cap: real, cmax: real, front: seq<int>)
    requires GreedyState(costs, s, cap, cmax) && 0 < s.left
    requires var t := Next(costs, s); GreedyGood(costs, t.left, t.rank, t.mine, cap + cmax, front)
    ensures GreedyGood(costs, s.left, s.rank, s.mine, cap + cmax, front + [s.rank])
  {
    NextState(costs, s, cap, cmax);
    if Closes(costs, s) {
      GreedyClose(costs, s.left, s.rank, s.mine, cap + cmax, front);
    } else {
      GreedyContinue(costs, s.left, s.rank, s.mine, cap + cmax, front);
    }
  }

  lemma {:induction false} GreedyRun(costs: seq<real>, s: LoopState, cap: real, cmax: real) returns (p: seq<int>)
    requires GreedyState(costs, s, cap, cmax)
    ensures GreedyFrom(costs, s) == Some(p)
    ensures GreedyGood(costs, s.left, s.rank, s.mine, cap + cmax, p)
    decreases s.left
  {
    if s.left == 0 {
      p := [];
    } else {
      NextState(costs, s, cap, cmax);
      var front := GreedyRun(costs, Next(costs, s), cap, cmax);
      GreedyAdd(costs, s, cap, cmax, front);
      p := front + [s.rank];
    }
  }

  /**
   Main result. With no negative cost, a positive first one and at least one block per rank the split never aborts,
   hands each rank one contiguous run of blocks in rank order, and exceeds the average load by at most one block.
   */
  lemma GreedySplit(costs: seq<real>, nranks: nat, cmax: real)
    requires 0 < nranks <= |costs| && Chargeable(costs) && EachAtMost(costs, cmax)
    ensures Greedy(costs, nranks).Some?
    ensures var p := Greedy(costs, nranks).value;
            && IsPlacement(p, |costs|, nranks) && NonDecreasing(p) && UsesEveryRank(p, nranks)
            && MaxLoadAtMost(costs, p, nranks, Sum(costs) / nranks as real + cmax)
  {
    PrefixIsPositive(costs, |costs|);
    assert costs[..|costs|] == costs;
    var share := EvenShare(nranks, Sum(costs));
    StartState(costs, nranks, share, cmax);
    var p := GreedyRun(costs, LoopState(|costs|, nranks - 1, 0.0, Sum(costs), share), share, cmax);
    GreedyGoodMeans(costs, nranks - 1, share + cmax, p);
  }

  lemma GreedyGoodMeans(costs: seq<real>, rank: nat, bound: real, p: seq<int>)
    requires |costs| > 0 && GreedyGood(costs, |costs|, rank, 0.0, bound, p)
    ensures IsPlacement(p, |costs|, rank + 1) && NonDecreasing(p) && UsesEveryRank(p, rank + 1)
    ensures MaxLoadAtMost(costs, p, rank + 1, bound)
  {
    assert costs[..|costs|] == costs;
    assert p[|costs| - 1] == rank;
    forall r | 0 <= r < rank + 1 ensures r in p && Load(costs, p, r) <= bound {
      assert r < rank || r == rank;
    }
  }

  // ----- shape, whatever the costs -----

  /** Rank-ordered runs down from s.rank, none of the ranks left out. */
  ghost predicate RankRuns(p: seq<int>, left: nat, rank: nat)
  {
    && IsPlacement(p, left, rank + 1) && NonDecreasing(p)
    && (forall r :: 0 <= r < rank ==> r in p)
    && (left > 0 ==> p[left - 1] == rank)
  }

  lemma {:induction false} GreedyRuns(costs: seq<real>, s: LoopState)
    requires s.left <= |costs| && (s.left >= s.rank + 1 || s.rank == 0)
    ensures GreedyFrom(costs, s).Some? ==> RankRuns(GreedyFrom(costs, s).value, s.left, s.rank)
    decreases s.left
  {
    if s.left > 0 && GreedyFrom(costs, s).Some? {
      GreedyRuns(costs, Next(costs, s));
      var p := GreedyFrom(costs, Next(costs, s)).value;
      forall r | 0 <= r < s.rank ensures r in p + [s.rank] {
        if Closes(costs, s) && r == s.rank - 1 {
          assert p[s.left - 2] == r;
        } else {
          assert r in p;
        }
      }
    }
  }

  /** Whenever the split does not abort it is contiguous and leaves no rank out. */
  lemma GreedyIsContiguous(costs: seq<real>, nranks: nat)
    requires 0 < nranks && Greedy(costs, nranks).Some?
    ensures var p := Greedy(costs, nranks).value;
            IsPlacement(p, |costs|, nranks) && NonDecreasing(p) && UsesEveryRank(p, nranks)
  {
    GreedyRuns(costs, Start(costs, nranks));
    var p := Greedy(costs, nranks).value;
    assert p[|costs| - 1] == nranks - 1;
  }

  // ----- exactly when it aborts -----

  /** The rank the loop is filling when it comes to block b. */
  function RankAt(costs: seq<real>, s: LoopState, b: nat): nat
    requires b < s.left <= |costs|
    decreases s.left
  {
    if s.left == b + 1 then s.rank else RankAt(costs, Next(costs, s), b)
  }

  /** z is the first block that costs something. */
  ghost predicate IsFirstCostly(costs: seq<real>, z: nat)
  {
    z < |costs| && 0.0 < costs[z] && forall b :: 0 <= b < z ==> costs[b] == 0.0
  }

  lemma {:induction false} FreePrefix(costs: seq<real>, z: nat, k: nat)
    requires k <= z < |costs| && forall b :: 0 <= b < z ==> costs[b] == 0.0
    ensures Sum(costs[..k]) == 0.0
  {
    if k > 0 {
      FreePrefix(costs, z, k - 1);
      assert costs[..k][..k - 1] == costs[..k - 1];
    }
  }

  lemma CostlyPrefix(costs: seq<real>, z: nat, k: nat)
    requires Nonnegative(costs) && IsFirstCostly(costs, z) && z < k <= |costs|
    ensures 0.0 < Sum(costs[..k])
  {
    RangeSplit(costs, 0, z, k);
    RangeSplit(costs, z, z + 1, k);
    SumNonnegative(costs[0..z]);
    SumNonnegative(costs[z + 1..k]);
    assert costs[z..z + 1] == [costs[z]];
    SumSingleton(costs[z]);
    assert costs[0..k] == costs[..k];
  }

  /** Shares are exact, and there is a block for every rank. */
  ghost predicate ExactState(costs: seq<real>, s: LoopState)
  {
    && s.left <= |costs| && Nonnegative(costs) && 0.0 <= s.mine
    && s.remaining == s.mine + Sum(costs[..s.left])
    && Times(s.rank + 1, s.target) == s.remaining
    && (s.left >= s.rank + 1 || s.rank == 0)
  }

  lemma ExactNext(costs: seq<real>, s: LoopState)
    requires ExactState(costs, s) && 0 < s.left
    ensures ExactState(costs, Next(costs, s))
  {
    var k := s.left;
    assert costs[..k][..k - 1] == costs[..k - 1];
    if s.rank > 0 {
      TimesOfQuotient(s.rank, s.remaining - (s.mine + costs[k - 1]));
    }
  }

  /** The last rank takes all that is left. */
  lemma {:induction false} LastRankGoesOn(costs: seq<real>, s: LoopState)
    requires s.left <= |costs| && s.rank == 0 && s.target != 0.0
    ensures GreedyFrom(costs, s).Some?
    decreases s.left
  {
    if s.left > 0 {
      LastRankGoesOn(costs, Next(costs, s));
    }
  }

  /** A rank not filled when only free blocks are left closes for lack of blocks, and the next one has no share. */
  lemma {:induction false} FreeBlocksAbort(costs: seq<real>, s: LoopState, z: nat)
    requires ExactState(costs, s) && IsFirstCostly(costs, z) && 0 < s.rank && s.left <= z && s.mine < s.target
    ensures GreedyFrom(costs, s).None?
    decreases s.left
  {
    var k := s.left;
    FreePrefix(costs, z, k);
    FreePrefix(costs, z, k - 1);
    ExactNext(costs, s);
    if s.target != 0.0 && !Closes(costs, s) {
      FreeBlocksAbort(costs, Next(costs, s), z);
    }
  }

  /** From any point before the first costly block. */
  lemma {:induction false} AbortsFrom(costs: seq<real>, s: LoopState, z: nat)
    requires ExactState(costs, s) && IsFirstCostly(costs, z) && z < s.left
    ensures GreedyFrom(costs, s).None? <==> z > 0 && RankAt(costs, s, z) > 0
    decreases s.left
  {
    CostlyPrefix(costs, z, s.left);
    ShareIsPositive(s.rank + 1, s.target);
    ExactNext(costs, s);
    if s.left > z + 1 {
      AbortsFrom(costs, Next(costs, s), z);
    } else if s.rank == 0 {
      LastRankGoesOn(costs, s);
    } else {
      FreePrefix(costs, z, z);
      if !Closes(costs, s) {
        FreeBlocksAbort(costs, Next(costs, s), z);
      }
    }
  }

  lemma StartIsExact(costs: seq<real>, nranks: nat)
    requires 0 < nranks <= |costs| && Nonnegative(costs)
    ensures ExactState(costs, Start(costs, nranks))
  {
    assert costs[..|costs|] == costs;
    TimesOfQuotient(nranks, Sum(costs));
  }

  /**
   For costs that are not negative and not all 0 the split aborts if and only if the first costly block is not the first
   one and is reached before the ranks are down to the last one: the free blocks before it are then a rank's only share.
   */
  lemma GreedyAbortsIff(costs: seq<real>, nranks: nat, z: nat)
    requires 0 < nranks <= |costs| && Nonnegative(costs) && IsFirstCostly(costs, z)
    ensures Greedy(costs, nranks).None? <==> z > 0 && RankAt(costs, Start(costs, nranks), z) > 0
  {
    StartIsExact(costs, nranks);
    AbortsFrom(costs, Start(costs, nranks), z);
  }

  /** Each block closes at most one rank. */
  lemma {:induction false} RankAtLeast(costs: seq<real>, s: LoopState, b: nat)
    requires b < s.left <= |costs|
    ensures RankAt(costs, s, b) >= s.rank - (s.left - 1 - b)
    ensures RankAt(costs, s, b) <= s.rank
    decreases s.left
  {
    if s.left > b + 1 {
      RankAtLeast(costs, Next(costs, s), b);
    }
  }

  lemma SuffixStep(costs: seq<real>, k: nat)
    requires k < |costs|
    ensures Sum(costs[k..]) == costs[k] + Sum(costs[k + 1..])
  {
    assert costs[k..] == [costs[k]] + costs[k + 1..];
    SumAppend([costs[k]], costs[k + 1..]);
    SumSingleton(costs[k]);
  }

  lemma SuffixesDescend(costs: seq<real>, a: nat, b: nat)
    requires Nonnegative(costs) && a <= b <= |costs|
    ensures Sum(costs[b..]) <= Sum(costs[a..])
  {
    assert costs[a..] == costs[a..b] + costs[b..];
    SumAppend(costs[a..b], costs[b..]);
    SumNonnegative(costs[a..b]);
  }

  /** Two ranks: the upper one is closed before block z exactly when the blocks after z make up its half. */
  lemma {:induction false} RankAtOfTwo(costs: seq<real>, s: LoopState, z: nat)
    requires Nonnegative(costs) && 0 < z < s.left <= |costs| && s.rank == 1 && s.mine == Sum(costs[s.left..])
    requires s.mine < s.target
    ensures RankAt(costs, s, z) > 0 <==> Sum(costs[z + 1..]) < s.target
    decreases s.left
  {
    if s.left > z + 1 {
      SuffixStep(costs, s.left - 1);
      if Closes(costs, s) {
        RankAtLeast(costs, Next(costs, s), z);
        SuffixesDescend(costs, z + 1, s.left - 1);
      } else {
        RankAtOfTwo(costs, Next(costs, s), z);
      }
    }
  }

  /** No first costly block: the shares are 0 from the start. */
  lemma AllFreeAborts(costs: seq<real>, nranks: nat)
    requires 0 < nranks <= |costs| && Sum(costs) == 0.0
    ensures Greedy(costs, nranks).None?
  {
  }

  /**
   What a caller can check: one rank never aborts; with free blocks first, more ranks than costly-or-later blocks always
   abort; two ranks abort exactly when free blocks come first and the first costly block outweighs all later ones.
   */
  lemma GreedyAbortsOn(costs: seq<real>, nranks: nat, z: nat)
    requires 0 < nranks <= |costs| && Nonnegative(costs) && IsFirstCostly(costs, z)
    ensures nranks == 1 ==> Greedy(costs, nranks).Some?
    ensures 0 < z && |costs| - z < nranks ==> Greedy(costs, nranks).None?
    ensures nranks == 2 ==> (Greedy(costs, nranks).None? <==> 0 < z && Sum(costs[z + 1..]) < costs[z])
  {
    GreedyAbortsIff(costs, nranks, z);
    RankAtLeast(costs, Start(costs, nranks), z);
    if nranks == 2 && 0 < z {
      TwoRanksAbort(costs, z);
    }
  }

  lemma TwoRanksAbort(costs: seq<real>, z: nat)
    requires 2 <= |costs| && Nonnegative(costs) && IsFirstCostly(costs, z) && 0 < z
    ensures RankAt(costs, Start(costs, 2), z) > 0 <==> Sum(costs[z + 1..]) < costs[z]
  {
    StartOfTwo(costs, z);
    RankAtOfTwo(costs, Start(costs, 2), z);
    TotalFrom(costs, z);
    LessThanHalf(Sum(costs), costs[z], Sum(costs[z + 1..]));
  }

  lemma StartOfTwo(costs: seq<real>, z: nat)
    requires Nonnegative(costs) && IsFirstCostly(costs, z)
    ensures Start(costs, 2).mine == Sum(costs[|costs|..]) < Start(costs, 2).target
  {
    CostlyPrefix(costs, z, |costs|);
    SumSplit(costs, |costs|);
    assert costs[|costs|..] == [];
  }

  lemma TotalFrom(costs: seq<real>, z: nat)
    requires z < |costs| && forall b :: 0 <= b < z ==> costs[b] == 0.0
    ensures Sum(costs) == costs[z] + Sum(costs[z + 1..])
  {
    FreePrefix(costs, z, z);
    SuffixStep(costs, z);
    SumSplit(costs, z);
  }

  lemma LessThanHalf(total: real, first: real, rest: real)
    requires total == first + rest
    ensures rest < total / 2 as real <==> rest < first
  {
  }

  /** For example [0.0, 1.0] on two ranks. */
  lemma FreeFirstBlockAborts()
    ensures Greedy([0.0, 1.0], 2).None?
  {
    GreedyAbortsOn([0.0, 1.0], 2, 1);
  }

  // ----- the baseline policy: every block costs 1 -----

  /** The share of rank r in an even split of n blocks, the larger shares at the highest ranks. */
  function Quota(n: nat, nranks: nat, r: int): nat
    requires nranks > 0
  {
    n / nranks + (if r >= nranks - n % nranks then 1 else 0)
  }

  function QuotaSum(n: nat, nranks: nat, k: nat): nat
    requires nranks > 0
  {
    if k == 0 then 0 else QuotaSum(n, nranks, k - 1) + Quota(n, nranks, k - 1)
  }

  lemma {:induction false} QuotasAddUp(n: nat, nranks: nat, k: nat)
    requires 0 < nranks && k <= nranks
    ensures QuotaSum(n, nranks, k)
            == n / nranks * k + (if k > nranks - n % nranks then k - (nranks - n % nranks) else 0)
  {
    if k > 0 {
      QuotasAddUp(n, nranks, k - 1);
      assert n / nranks * k == n / nranks * (k - 1) + n / nranks;
    }
  }

  lemma {:induction false} QuotaSumBounds(n: nat, nranks: nat, k: nat)
    requires 0 < nranks
    ensures Times(k, (n / nranks) as real) <= QuotaSum(n, nranks, k) as real <= Times(k, (n / nranks + 1) as real)
    ensures k <= nranks - n % nranks ==> QuotaSum(n, nranks, k) as real == Times(k, (n / nranks) as real)
    ensures k > nranks - n % nranks ==> QuotaSum(n, nranks, k) as real > Times(k, (n / nranks) as real)
    ensures QuotaSum(n, nranks, k) >= if n >= nranks then k else 0
  {
    if k > 0 {
      QuotaSumBounds(n, nranks, k - 1);
    }
  }

  /** The running share of rank k - 1 rounds up to its quota. */
  lemma TargetMeansQuota(n: nat, nranks: nat, k: nat, target: real, held: nat)
    requires 0 < nranks <= n && 0 < k
    requires Times(k, target) == QuotaSum(n, nranks, k) as real
    requires held <= Quota(n, nranks, k - 1)
    ensures held as real >= target <==> held == Quota(n, nranks, k - 1)
  {
    QuotaSumBounds(n, nranks, k);
    var q := n / nranks;
    if target > (q + 1) as real {
      TimesOrder(k, (q + 1) as real, target);
    }
    if target < q as real {
      TimesOrder(k, target, q as real);
    }
    if target > q as real {
      TimesOrder(k, q as real, target);
    }
    if k > nranks - n % nranks && target <= q as real {
      TimesOrder(k, target, q as real);
    }
  }

  ghost predicate UnitCosts(costs: seq<real>)
  {
    forall b :: 0 <= b < |costs| ==> costs[b] == 1.0
  }

  /** Between iterations: the current rank holds `held` blocks and the rest still add up to the quotas. */
  ghost predicate EvenState(n: nat, nranks: nat, s: LoopState, held: nat)
    requires nranks > 0
  {
    && s.mine == held as real
    && s.left + held == QuotaSum(n, nranks, s.rank + 1)
    && s.remaining == QuotaSum(n, nranks, s.rank + 1) as real
    && Times(s.rank + 1, s.target) == s.remaining
    && (held < Quota(n, nranks, s.rank) || (s.left == 0 && s.rank == 0 && held == Quota(n, nranks, 0)))
  }

  lemma EvenNext(costs: seq<real>, nranks: nat, s: LoopState, held: nat)
    requires 0 < nranks <= |costs| && UnitCosts(costs)
    requires 0 < s.left <= |costs| && EvenState(|costs|, nranks, s, held)
    ensures s.target > 0.0
    ensures Closes(costs, s) <==> held + 1 == Quota(|costs|, nranks, s.rank) && s.rank > 0
    ensures EvenState(|costs|, nranks, Next(costs, s), if Closes(costs, s) then 0 else held + 1)
  {
    var n := |costs|;
    TargetMeansQuota(n, nranks, s.rank + 1, s.target, held + 1);
    ShareIsPositive(s.rank + 1, s.target);
    QuotaSumBounds(n, nranks, s.rank);
    if s.rank > 0 {
      EvenShareAgain(s.rank, s.remaining, s.mine);
    }
  }

  lemma EvenShareAgain(rank: nat, remaining: real, mine: real)
    requires rank > 0
    ensures Times(rank, (remaining - (mine + 1.0)) / rank as real) == remaining - (mine + 1.0)
  {
    TimesOfQuotient(rank, remaining - (mine + 1.0));
  }

  lemma {:induction false} EvenRun(costs: seq<real>, nranks: nat, s: LoopState, held: nat) returns (p: seq<int>)
    requires 0 < nranks <= |costs| && UnitCosts(costs)
    requires s.left <= |costs| && EvenState(|costs|, nranks, s, held)
    ensures GreedyFrom(costs, s) == Some(p)
    ensures forall r :: 0 <= r < s.rank ==> Count(p, r) == Quota(|costs|, nranks, r)
    ensures Count(p, s.rank) == Quota(|costs|, nranks, s.rank) - held
    ensures forall r :: r > s.rank ==> Count(p, r) == 0
    decreases s.left
  {
    if s.left == 0 {
      p := [];
      QuotaSumBounds(|costs|, nranks, s.rank);
    } else {
      EvenNext(costs, nranks, s, held);
      var front := EvenRun(costs, nranks, Next(costs, s), if Closes(costs, s) then 0 else held + 1);
      p := front + [s.rank];
      assert p[..|p| - 1] == front;
    }
  }

  /**
   The baseline is perfectly balanced: every rank gets n/m blocks, the n%m highest-numbered ones one more.
   */
  lemma UnitCostIsBalanced(costs: seq<real>, nranks: nat)
    requires 0 < nranks <= |costs| && UnitCosts(costs)
    ensures Greedy(costs, nranks).Some?
    ensures forall r :: 0 <= r < nranks ==> Count(Greedy(costs, nranks).value, r) == Quota(|costs|, nranks, r)
  {
    var n := |costs|;
    QuotasAddUp(n, nranks, nranks);
    assert n / nranks * nranks + n % nranks == n;
    UnitSum(costs);
    var share := EvenShare(nranks, Sum(costs));
    QuotaSumBounds(n, nranks, nranks - 1);
    var p := EvenRun(costs, nranks, LoopState(n, nranks - 1, 0.0, Sum(costs), share), 0);
  }

  lemma {:induction false} UnitSum(costs: seq<real>)
    requires UnitCosts(costs)
    ensures Sum(costs) == |costs| as real
  {
    if |costs| > 0 {
      UnitSum(costs[..|costs| - 1]);
    }
  }
}
