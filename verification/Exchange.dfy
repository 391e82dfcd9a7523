/**
 The moves of the iterative solver (lb/src/lb-common/solver.h) on placements: which block it moves, and what that does
 to the loads.
 */
module Exchange {
  import opened Placement

  /** A cost and an index, ordered first by the cost (std::pair<double, int>). */
  datatype Entry = Entry(cost: real, id: int)

  predicate EntryLe(a: Entry, b: Entry)
  {
    a.cost < b.cost || (a.cost == b.cost && a.id <= b.id)
  }

  /** Block b is the last, or first, of rank r in the order of entries. */
  ghost predicate IsLargestOn(costs: seq<real>, home: seq<int>, r: int, b: int)
    requires |costs| == |home|
  {
    && 0 <= b < |home| && home[b] == r
    && forall j :: 0 <= j < |home| && home[j] == r ==> EntryLe(Entry(costs[j], j), Entry(costs[b], b))
  }

  ghost predicate IsSmallestOn(costs: seq<real>, home: seq<int>, r: int, b: int)
    requires |costs| == |home|
  {
    && 0 <= b < |home| && home[b] == r
    && forall j :: 0 <= j < |home| && home[j] == r ==> EntryLe(Entry(costs[b], b), Entry(costs[j], j))
  }

  /** Rank r is the last, or first, of all ranks in the order of loads. */
  ghost predicate IsMostLoaded(costs: seq<real>, home: seq<int>, n: int, r: int)
    requires |costs| == |home|
  {
    && 0 <= r < n
    && forall q :: 0 <= q < n ==> EntryLe(Entry(Load(costs, home, q), q), Entry(Load(costs, home, r), r))
  }

  ghost predicate IsLeastLoaded(costs: seq<real>, home: seq<int>, n: int, r: int)
    requires |costs| == |home|
  {
    && 0 <= r < n
    && forall q :: 0 <= q < n ==> EntryLe(Entry(Load(costs, home, r), r), Entry(Load(costs, home, q), q))
  }

  /** One iteration: a block given away, or two blocks traded. */
  datatype Swap =
    | Give(block: int, src: int, dst: int)
    | Trade(big: int, small: int, src: int, dst: int)

  function Applied(home: seq<int>, swap: Swap): (h: seq<int>)
    ensures |h| == |home|
  {
    match swap
    case Give(b, _, dst) => if 0 <= b < |home| then home[b := dst] else home
    case Trade(big, small, src, dst) =>
      if 0 <= big < |home| && 0 <= small < |home| then home[big := dst][small := src] else home
  }

  function Gap(costs: seq<real>, home: seq<int>, swap: Swap): real
    requires |costs| == |home|
  {
    Load(costs, home, swap.src) - Load(costs, home, swap.dst)
  }

  /** The branches of Iterate: to a rank without blocks, SWAP1, SWAP2 and SWAP3. */
  ghost predicate IsChosen(costs: seq<real>, home: seq<int>, n: int, swap: Swap)
    requires |costs| == |home|
  {
    && IsMostLoaded(costs, home, n, swap.src) && IsLeastLoaded(costs, home, n, swap.dst)
    && match swap
       case Give(b, src, dst) =>
         || (dst !in home && IsLargestOn(costs, home, src, b))
         || (dst in home && IsLargestOn(costs, home, src, b) && costs[b] < Gap(costs, home, swap))
         || (dst in home && IsSmallestOn(costs, home, src, b) && costs[b] < Gap(costs, home, swap)
             && HasBigBlock(costs, home, src, Gap(costs, home, swap)))
       case Trade(big, small, src, dst) =>
         && dst in home && IsLargestOn(costs, home, src, big) && IsSmallestOn(costs, home, dst, small)
         && costs[big] >= Gap(costs, home, swap) && HasNoSmallBlock(costs, home, src, Gap(costs, home, swap))
  }

  ghost predicate HasBigBlock(costs: seq<real>, home: seq<int>, r: int, gap: real)
    requires |costs| == |home|
  {
    exists b :: IsLargestOn(costs, home, r, b) && costs[b] >= gap
  }

  ghost predicate HasNoSmallBlock(costs: seq<real>, home: seq<int>, r: int, gap: real)
    requires |costs| == |home|
  {
    exists b :: IsSmallestOn(costs, home, r, b) && costs[b] >= gap
  }

  // ----- loads -----

  /** Moving one block moves its cost. */
  lemma {:induction false} LoadOfMove(costs: seq<real>, home: seq<int>, b: nat, d: int, r: int)
    requires |costs| == |home| && b < |home|
    ensures Load(costs, home[b := d], r)
            == Load(costs, home, r) - (if home[b] == r then costs[b] else 0.0) + (if d == r then costs[b] else 0.0)
  {
    var n := |home| - 1;
    var moved := home[b := d];
    if b == n {
      assert moved[..n] == home[..n];
    } else {
      LoadOfMove(costs[..n], home[..n], b, d, r);
      assert moved[..n] == home[..n][b := d];
    }
  }

  /** The cost that changes ranks. */
  function Shift(costs: seq<real>, swap: Swap): real
    requires match swap case Give(b, _, _) => 0 <= b < |costs|
                        case Trade(big, small, _, _) => 0 <= big < |costs| && 0 <= small < |costs|
  {
    match swap
    case Give(b, _, _) => costs[b]
    case Trade(big, small, _, _) => costs[big] - costs[small]
  }

  /** An iteration shifts cost from the most to the least loaded rank and leaves the other ranks alone. */
  lemma ShiftsLoad(costs: seq<real>, home: seq<int>, n: int, swap: Swap, r: int)
    requires |costs| == |home| && IsChosen(costs, home, n, swap)
    ensures Load(costs, Applied(home, swap), r)
            == Load(costs, home, r) - (if r == swap.src then Shift(costs, swap) else 0.0)
               + (if r == swap.dst then Shift(costs, swap) else 0.0)
  {
    match swap
    case Give(b, src, dst) =>
      LoadOfMove(costs, home, b, dst, r);
    case Trade(big, small, src, dst) =>
      LoadOfMove(costs, home, big, dst, r);
      LoadOfMove(costs, home[big := dst], small, src, r);
  }

  // ----- the sum of squares -----

  function Squares(loads: seq<real>): real
  {
    if |loads| == 0 then 0.0 else Squares(loads[..|loads| - 1]) + loads[|loads| - 1] * loads[|loads| - 1]
  }

  lemma {:induction false} SquaresUpdate(loads: seq<real>, r: nat, x: real)
    requires r < |loads|
    ensures Squares(loads[r := x]) == Squares(loads) - loads[r] * loads[r] + x * x
  {
    var n := |loads| - 1;
    var changed := loads[r := x];
    if r == n {
      assert changed[..n] == loads[..n];
    } else {
      SquaresUpdate(loads[..n], r, x);
      assert changed[..n] == loads[..n][r := x];
    }
  }

  lemma ShiftedSquares(a: real, b: real, x: real)
    ensures (a - x) * (a - x) + (b + x) * (b + x) == a * a + b * b + 2.0 * (x * (x - (a - b)))
  {
  }

  lemma Sign(x: real, y: real)
    ensures x * y < 0.0 <==> (x > 0.0 && y < 0.0) || (x < 0.0 && y > 0.0)
  {
  }

  /** The shift and the gap decide whether the sum of squared loads falls. */
  predicate IsInside(shift: real, gap: real)
  {
    0.0 < shift < gap || gap < shift < 0.0
  }

  lemma ShiftLowers(a: real, b: real, x: real, before: real, after: real)
    requires before == a * a + b * b && after == (a - x) * (a - x) + (b + x) * (b + x)
    ensures after < before <==> IsInside(x, a - b)
  {
    ShiftedSquares(a, b, x);
    Sign(x, x - (a - b));
  }

  /**
   Main result: an iteration lowers the sum of squared loads exactly when it shifts a positive cost smaller than the
   difference of the two loads. SWAP1 and SWAP2 do so whenever the block has a positive cost.
   */
  lemma SquaresFallIff(costs: seq<real>, home: seq<int>, n: int, swap: Swap)
    requires |costs| == |home| && 0 <= n && IsChosen(costs, home, n, swap)
    ensures Squares(Loads(costs, Applied(home, swap), n)) < Squares(Loads(costs, home, n))
            <==> 0.0 < Shift(costs, swap) < Gap(costs, home, swap)
    ensures swap.Give? && swap.dst in home && costs[swap.block] > 0.0
            ==> Squares(Loads(costs, Applied(home, swap), n)) < Squares(Loads(costs, home, n))
  {
    var src, dst, x := swap.src, swap.dst, Shift(costs, swap);
    assert EntryLe(Entry(Load(costs, home, dst), dst), Entry(Load(costs, home, src), src));
    var loads := Loads(costs, home, n);
    var after := Loads(costs, Applied(home, swap), n);
    forall r | 0 <= r < n
      ensures after[r] == loads[r] - (if r == src then x else 0.0) + (if r == dst then x else 0.0)
    {
      ShiftsLoad(costs, home, n, swap, r);
    }
    if src == dst {
      assert after == loads;
    } else {
      assert after == loads[src := loads[src] - x][dst := loads[dst] + x];
      TwoSquares(loads, src, dst, x);
    }
  }

  lemma TwoSquares(loads: seq<real>, src: nat, dst: nat, x: real)
    requires src < |loads| && dst < |loads| && src != dst
    ensures Squares(loads[src := loads[src] - x][dst := loads[dst] + x]) < Squares(loads)
            <==> IsInside(x, loads[src] - loads[dst])
  {
    var a, b, half := loads[src], loads[dst], loads[src := loads[src] - x];
    SquaresUpdate(loads, src, a - x);
    SquaresUpdate(half, dst, b + x);
    var before, after := a * a + b * b, (a - x) * (a - x) + (b + x) * (b + x);
    assert Squares(half[dst := b + x]) == Squares(loads) - before + after;
    ShiftLowers(a, b, x, before, after);
    assert loads[src := loads[src] - x][dst := loads[dst] + x] == half[dst := b + x];
  }

  // ----- which move is made -----

  /** Giving block b to rank dst would lower the sum of squared loads. */
  ghost predicate GivingLowers(costs: seq<real>, home: seq<int>, n: nat, b: int, dst: int)
    requires |costs| == |home|
  {
    0 <= b < |home| && Squares(Loads(costs, home[b := dst], n)) < Squares(Loads(costs, home, n))
  }

  lemma GivingLowersIff(costs: seq<real>, home: seq<int>, n: nat, b: nat, dst: nat)
    requires |costs| == |home| && b < |home| && 0 <= home[b] < n && dst < n
    requires Load(costs, home, dst) <= Load(costs, home, home[b])
    ensures GivingLowers(costs, home, n, b, dst)
            <==> 0.0 < costs[b] < Load(costs, home, home[b]) - Load(costs, home, dst)
  {
    var src, x, loads, after := home[b], costs[b], Loads(costs, home, n), Loads(costs, home[b := dst], n);
    forall r | 0 <= r < n
      ensures after[r] == loads[r] - (if r == src then x else 0.0) + (if r == dst then x else 0.0)
    {
      LoadOfMove(costs, home, b, dst, r);
    }
    if src == dst {
      assert after == loads;
    } else {
      assert after == loads[src := loads[src] - x][dst := loads[dst] + x];
      TwoSquares(loads, src, dst, x);
    }
  }

  /** The ends of a rank's blocks are unique. */
  lemma EndsAreUnique(costs: seq<real>, home: seq<int>, r: int, a: int, b: int)
    requires |costs| == |home|
    ensures IsLargestOn(costs, home, r, a) && IsLargestOn(costs, home, r, b) ==> a == b
    ensures IsSmallestOn(costs, home, r, a) && IsSmallestOn(costs, home, r, b) ==> a == b
  {
  }

  ghost predicate ArePositive(costs: seq<real>)
  {
    forall b :: 0 <= b < |costs| ==> 0.0 < costs[b]
  }

  /** Every block of the most loaded rank: it lowers the sum exactly when it is smaller than the gap. */
  lemma GivingFromTop(costs: seq<real>, home: seq<int>, n: nat, src: int, dst: int, b: int)
    requires |costs| == |home| && ArePositive(costs)
    requires IsMostLoaded(costs, home, n, src) && IsLeastLoaded(costs, home, n, dst)
    requires 0 <= b < |home| && home[b] == src
    ensures GivingLowers(costs, home, n, b, dst) <==> costs[b] < Load(costs, home, src) - Load(costs, home, dst)
  {
    assert EntryLe(Entry(Load(costs, home, dst), dst), Entry(Load(costs, home, src), src));
    GivingLowersIff(costs, home, n, b, dst);
  }

  /**
   Main result: the move is decided by what giving blocks away does to the sum of squared loads. The largest block of
   the most loaded rank is given if that lowers the sum; else the smallest if that does; a trade is made if and only if
   no block of that rank lowers it.
   */
  lemma LargestFirst(costs: seq<real>, home: seq<int>, n: nat, swap: Swap, big: int, least: int)
    requires |costs| == |home| && ArePositive(costs) && IsChosen(costs, home, n, swap) && swap.dst in home
    requires IsLargestOn(costs, home, swap.src, big) && IsSmallestOn(costs, home, swap.src, least)
    ensures GivingLowers(costs, home, n, big, swap.dst) ==> swap == Give(big, swap.src, swap.dst)
    ensures !GivingLowers(costs, home, n, big, swap.dst) && GivingLowers(costs, home, n, least, swap.dst)
            ==> swap == Give(least, swap.src, swap.dst)
    ensures swap.Trade? <==> NoneLowers(costs, home, n, swap.src, swap.dst)
  {
    var src, dst := swap.src, swap.dst;
    forall b | 0 <= b < |home| && home[b] == src
      ensures GivingLowers(costs, home, n, b, dst) <==> costs[b] < Gap(costs, home, swap)
      ensures costs[least] <= costs[b] <= costs[big]
    {
      GivingFromTop(costs, home, n, src, dst, b);
    }
    if swap.Give? {
      EndsAreUnique(costs, home, src, swap.block, big);
      EndsAreUnique(costs, home, src, swap.block, least);
      if HasBigBlock(costs, home, src, Gap(costs, home, swap)) {
        var b :| IsLargestOn(costs, home, src, b) && costs[b] >= Gap(costs, home, swap);
        EndsAreUnique(costs, home, src, b, big);
      }
    } else {
      var b :| IsSmallestOn(costs, home, src, b) && costs[b] >= Gap(costs, home, swap);
      EndsAreUnique(costs, home, src, b, least);
      EndsAreUnique(costs, home, src, swap.big, big);
    }
  }

  /** No block of rank src lowers the sum when given to dst. */
  ghost predicate NoneLowers(costs: seq<real>, home: seq<int>, n: nat, src: int, dst: int)
    requires |costs| == |home|
  {
    forall b :: 0 <= b < |home| && home[b] == src ==> !GivingLowers(costs, home, n, b, dst)
  }

  /** A trade shifts as much as any, and a rank without blocks is given the costliest block. */
  lemma ShiftsMost(costs: seq<real>, home: seq<int>, n: nat, swap: Swap, x: int, y: int)
    requires |costs| == |home| && IsChosen(costs, home, n, swap)
    requires 0 <= x < |home| && home[x] == swap.src
    ensures swap.Trade? && 0 <= y < |home| && home[y] == swap.dst ==> costs[x] - costs[y] <= Shift(costs, swap)
    ensures swap.dst !in home ==> swap.Give? && costs[x] <= Shift(costs, swap)
  {
  }

  /** Ties go by number: of equal loads the highest rank gives and the lowest takes. */
  lemma TiesByNumber(costs: seq<real>, home: seq<int>, n: nat, swap: Swap, r: int)
    requires |costs| == |home| && IsChosen(costs, home, n, swap) && 0 <= r < n
    ensures Load(costs, home, r) == Load(costs, home, swap.src) ==> r <= swap.src
    ensures Load(costs, home, r) == Load(costs, home, swap.dst) ==> swap.dst <= r
  {
    assert EntryLe(Entry(Load(costs, home, r), r), Entry(Load(costs, home, swap.src), swap.src));
    assert EntryLe(Entry(Load(costs, home, swap.dst), swap.dst), Entry(Load(costs, home, r), r));
  }

  // ----- the maximum load -----

  /**
   Main result: the maximum load does not rise exactly when the shift is at least 0 and at most the gap. That holds for
   every block given away; a trade may violate it.
   */
  lemma MaximumStaysIff(costs: seq<real>, home: seq<int>, n: nat, swap: Swap)
    requires |costs| == |home| && Nonnegative(costs) && IsChosen(costs, home, n, swap)
    ensures MaxLoadAtMost(costs, Applied(home, swap), n, Load(costs, home, swap.src))
            <==> swap.src == swap.dst || 0.0 <= Shift(costs, swap) <= Gap(costs, home, swap)
    ensures swap.Give? ==> swap.src == swap.dst || 0.0 <= Shift(costs, swap) <= Gap(costs, home, swap)
  {
    var after, top := Applied(home, swap), Load(costs, home, swap.src);
    forall r | 0 <= r < n
      ensures Load(costs, home, r) <= top
      ensures Load(costs, after, r) == Load(costs, home, r) - (if r == swap.src then Shift(costs, swap) else 0.0)
                                       + (if r == swap.dst then Shift(costs, swap) else 0.0)
    {
      assert EntryLe(Entry(Load(costs, home, r), r), Entry(top, swap.src));
      ShiftsLoad(costs, home, n, swap, r);
    }
    assert MaxLoadAtMost(costs, after, n, top) ==>
             Load(costs, after, swap.src) <= top && Load(costs, after, swap.dst) <= top;
    if swap.Give? && swap.dst !in home {
      LoadOfAbsentRank(costs, home, swap.dst);
      LoadAtLeastBlock(costs, home, swap.block);
    }
  }

  /** A trade that raises the maximum from 10 to 18: rank 0 holds 10, rank 1 holds 1 and 8. */
  lemma TradeCanRaise(costs: seq<real>, home: seq<int>)
    requires costs == [10.0, 1.0, 8.0] && home == [0, 1, 1]
    ensures IsChosen(costs, home, 2, Trade(0, 1, 0, 1))
    ensures Load(costs, home, 0) == 10.0 && Load(costs, home, 1) == 9.0
    ensures Load(costs, Applied(home, Trade(0, 1, 0, 1)), 1) == 18.0
  {
    LoadsOfThree(10.0, 1.0, 8.0, 0, 1, 1, 0);
    LoadsOfThree(10.0, 1.0, 8.0, 0, 1, 1, 1);
    assert IsLargestOn(costs, home, 0, 0) && IsSmallestOn(costs, home, 0, 0) && IsSmallestOn(costs, home, 1, 1);
    ShiftsLoad(costs, home, 2, Trade(0, 1, 0, 1), 1);
  }
}
