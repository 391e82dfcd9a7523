/**
 The unrestricted contiguous-partition dynamic program (lb/src/lb_contig_improv2.cc): chunks of any size, empty ones
 included.
 */
module Dp2 {
  import opened Sums
  import opened Placement
  import opened Layouts
  import opened Cdp

  /** The last of r ranks gets j blocks, the others share the rest as well as possible. */
  function LastGets(prefix: seq<real>, n: nat, r: nat, j: nat): real
    requires n < |prefix| && r >= 2 && j <= n
    decreases r, 0
  {
    Max(prefix[n] - prefix[n - j], Split(prefix, n - j, r - 1))
  }

  /** The best that at most j blocks on the last rank allow. */
  function BestLast(prefix: seq<real>, n: nat, r: nat, j: nat): real
    requires n < |prefix| && r >= 2 && j <= n
    decreases r, 1, j
  {
    if j == 0 then LastGets(prefix, n, r, 0) else Min(BestLast(prefix, n, r, j - 1), LastGets(prefix, n, r, j))
  }

  /** The recurrence of the table: r ranks share the first n blocks. */
  function Split(prefix: seq<real>, n: nat, r: nat): real
    requires n < |prefix| && r >= 1
    decreases r, 2
  {
    if r == 1 then prefix[n] - prefix[0] else BestLast(prefix, n, r, n)
  }

  lemma {:induction false} BestLastIsLeast(prefix: seq<real>, n: nat, r: nat, j: nat, k: nat)
    requires n < |prefix| && r >= 2 && k <= j <= n
    ensures BestLast(prefix, n, r, j) <= LastGets(prefix, n, r, k)
    decreases j
  {
    if k < j {
      BestLastIsLeast(prefix, n, r, j - 1, k);
    }
  }

  lemma {:induction false} BestLastIsReached(prefix: seq<real>, n: nat, r: nat, j: nat) returns (k: nat)
    requires n < |prefix| && r >= 2 && j <= n
    ensures k <= j && BestLast(prefix, n, r, j) == LastGets(prefix, n, r, k)
    decreases j
  {
    k := j;
    if j > 0 && BestLast(prefix, n, r, j - 1) <= LastGets(prefix, n, r, j) {
      k := BestLastIsReached(prefix, n, r, j - 1);
    }
  }

  /** No way to cut the first n blocks into r chunks is cheaper. */
  lemma {:induction false} SplitIsLeast(prefix: seq<real>, sizes: seq<nat>)
    requires |sizes| >= 1 && Total(sizes) < |prefix| && Ascending(prefix)
    ensures Split(prefix, Total(sizes), |sizes|) <= MaxChunk(prefix, sizes)
    decreases |sizes|
  {
    var r, n := |sizes|, Total(sizes);
    var front, last := sizes[..r - 1], sizes[r - 1];
    if r == 1 {
      assert front == [];
    } else {
      SplitIsLeast(prefix, front);
      BestLastIsLeast(prefix, n, r, n, last);
    }
  }

  /** Some way costs just that. */
  lemma {:induction false} SplitIsReached(prefix: seq<real>, n: nat, r: nat) returns (sizes: seq<nat>)
    requires n < |prefix| && r >= 1 && Ascending(prefix)
    ensures |sizes| == r && Total(sizes) == n && MaxChunk(prefix, sizes) == Split(prefix, n, r)
    decreases r
  {
    if r == 1 {
      sizes := [n];
      assert sizes[..0] == [];
    } else {
      var k := BestLastIsReached(prefix, n, r, n);
      var front := SplitIsReached(prefix, n - k, r - 1);
      sizes := front + [k];
      assert sizes[..r - 1] == front;
    }
  }

  /** Spreading the blocks never costs more than keeping them together. */
  lemma {:induction false} SplitIsBounded(prefix: seq<real>, n: nat, r: nat)
    requires n < |prefix| && r >= 1 && Ascending(prefix)
    ensures 0.0 <= Split(prefix, n, r) <= prefix[n] - prefix[0]
    decreases r
  {
    if r > 1 {
      SplitIsBounded(prefix, n, r - 1);
      BestLastIsLeast(prefix, n, r, n, 0);
      var k := BestLastIsReached(prefix, n, r, n);
      SplitIsBounded(prefix, n - k, r - 1);
    }
  }

  /**
   Main result: a bound can be met by some contiguous placement exactly when it is at least the value of the table, so
   that value is the best maximum load of all contiguous placements, ranks without blocks included.
   */
  lemma SplitIsOptimal(costs: seq<real>, nranks: nat, bound: real)
    requires nranks >= 1 && Nonnegative(costs) && 0.0 <= bound
    ensures Split(Prefixes(costs), |costs|, nranks) <= bound <==> IsAchievable(costs, nranks, bound)
  {
    var prefix, n := Prefixes(costs), |costs|;
    PrefixesOfCosts(costs);
    if Split(prefix, n, nranks) <= bound {
      var sizes := SplitIsReached(prefix, n, nranks);
      LayoutIsContiguous(sizes);
      MaxChunkIsMaxLoad(costs, sizes, bound);
      assert costs[..n] == costs;
      assert IsWithin(costs, nranks, bound, Layout(sizes));
    }
    if IsAchievable(costs, nranks, bound) {
      var other :| IsWithin(costs, nranks, bound, other);
      ContiguousIsLayout(other, nranks);
      assert costs[..n] == costs;
      MaxChunkIsMaxLoad(costs, Counts(other, nranks), bound);
      SplitIsLeast(prefix, Counts(other, nranks));
    }
  }

  /** A contiguous placement within the bound. */
  ghost predicate IsWithin(costs: seq<real>, nranks: nat, bound: real, other: seq<int>)
  {
    && IsPlacement(other, |costs|, nranks) && NonDecreasing(other)
    && MaxLoadAtMost(costs, other, nranks, bound)
  }

  ghost predicate IsAchievable(costs: seq<real>, nranks: nat, bound: real)
  {
    exists other :: IsWithin(costs, nranks, bound, other)
  }

  /** Main result: it is a lower bound on the maximum load CDP reaches with its restricted chunk sizes. */
  lemma SplitBelowCdp(costs: seq<real>, nranks: nat, bound: real)
    requires 0 < nranks <= |costs| && Nonnegative(costs) && 0.0 <= bound
    requires |Layout(CdpSizes(costs, nranks))| == |costs|
    requires MaxLoadAtMost(costs, Layout(CdpSizes(costs, nranks)), nranks, bound)
    ensures Split(Prefixes(costs), |costs|, nranks) <= bound
  {
    CdpIsCandidate(costs, nranks);
    assert IsWithin(costs, nranks, bound, Layout(CdpSizes(costs, nranks)));
    SplitIsOptimal(costs, nranks, bound);
  }

  // ----- the table -----

  /** The rows before n are complete. */
  ghost predicate RowsDone(dp: array2<real>, prefix: seq<real>, n: int, big: real)
    requires n <= dp.Length0 && n <= |prefix|
    reads dp
  {
    && (forall i :: 1 <= i < n && dp.Length1 > 0 ==> dp[i, 0] == big)
    && (forall i, r :: 0 <= i < n && 1 <= r < dp.Length1 ==> dp[i, r] == Split(prefix, i, r))
  }

  /** Rows from n on are as they were allocated. */
  ghost predicate IsUntouched(dp: array2<real>, n: int, big: real)
    reads dp
  {
    forall i, j :: n <= i < dp.Length0 && 0 <= i && 0 <= j < dp.Length1 ==> dp[i, j] == big
  }

  /** What the loop over j has made of a cell after j = 0 to j. */
  function CellSoFar(prefix: seq<real>, n: nat, r: nat, j: int, big: real): real
    requires n < |prefix| && r >= 1 && -1 <= j <= n
  {
    if r == 1 then prefix[n] - prefix[0] else if j < 0 then big else BestLast(prefix, n, r, j)
  }

  /** One more choice of j. */
  lemma CellNext(prefix: seq<real>, n: nat, r: nat, j: nat, big: real, before: real)
    requires n < |prefix| && r >= 1 && j <= n && Ascending(prefix) && prefix[n] - prefix[0] <= big
    requires before == if r >= 2 then Split(prefix, n - j, r - 1) else if j == n then 0.0 else big
    ensures Min(CellSoFar(prefix, n, r, j - 1, big), Max(prefix[n] - prefix[n - j], before))
            == CellSoFar(prefix, n, r, j, big)
  {
    assert prefix[0] <= prefix[n];
    if r >= 2 {
      assert Max(prefix[n] - prefix[n - j], before) == LastGets(prefix, n, r, j);
      if j == 0 {
        SplitIsBounded(prefix, n, r - 1);
        assert BestLast(prefix, n, r, 0) == LastGets(prefix, n, r, 0);
      }
    }
  }

  /** What the loop over j finds in the column before. */
  lemma RowBefore(dp: array2<real>, prefix: seq<real>, n: nat, r: nat, j: nat, big: real)
    requires j <= n < |prefix| == dp.Length0 && 1 <= r < dp.Length1 && dp[0, 0] == 0.0 && dp[n, 0] == big
    requires RowsDone(dp, prefix, n, big)
    requires r >= 2 ==> dp[n, r - 1] == Split(prefix, n, r - 1)
    ensures dp[n - j, r - 1] == if r >= 2 then Split(prefix, n - j, r - 1) else if j == n then 0.0 else big
  {
    assert 0 <= n - j < n || j == 0;
  }

  method FillCell(cum: array<real>, dp: array2<real>, ghost prefix: seq<real>, n: nat, r: nat, big: real)
    requires IsCumulative(cum, prefix) && Ascending(prefix) && 1 <= n <= cum.Length && prefix[n] - prefix[0] <= big
    requires dp.Length0 == |prefix| && 1 <= r < dp.Length1
    requires RowsDone(dp, prefix, n, big)
    requires dp[0, 0] == 0.0 && dp[n, 0] == big && (r >= 2 ==> dp[n, r - 1] == Split(prefix, n, r - 1))
    requires dp[n, r] == CellSoFar(prefix, n, r, -1, big)
    modifies dp
    ensures dp[n, r] == Split(prefix, n, r)
    ensures forall i, j :: 0 <= i < dp.Length0 && 0 <= j < dp.Length1 && (i != n || j != r) ==>
              dp[i, j] == old(dp[i, j])
  {
    for j := 0 to n + 1
      invariant dp[n, r] == CellSoFar(prefix, n, r, j - 1, big)
      invariant RowsDone(dp, prefix, n, big)
      invariant forall a, b :: 0 <= a < dp.Length0 && 0 <= b < dp.Length1 && (a != n || b != r) ==>
                  dp[a, b] == old(dp[a, b])
    {
      var cost := GetSumRange(cum, prefix, n - j, n - 1);
      var before := dp[n - j, r - 1];
      RowBefore(dp, prefix, n, r, j, big);
      CellNext(prefix, n, r, j, big, before);
      dp[n, r] := Min(dp[n, r], Max(cost, before));
    }
  }

  method FillRow(cum: array<real>, dp: array2<real>, ghost prefix: seq<real>, n: nat, big: real)
    requires IsCumulative(cum, prefix) && Ascending(prefix) && 1 <= n <= cum.Length && prefix[n] - prefix[0] <= big
    requires dp.Length0 == |prefix| && 2 <= dp.Length1
    requires RowsDone(dp, prefix, n, big)
    requires dp[0, 0] == 0.0 && IsUntouched(dp, n, big)
    modifies dp
    ensures RowsDone(dp, prefix, n + 1, big)
    ensures forall i, j :: 0 <= i < dp.Length0 && 0 <= j < dp.Length1 && i != n ==> dp[i, j] == old(dp[i, j])
  {
    dp[n, 1] := GetSumRange(cum, prefix, 0, n - 1);
    for r := 1 to dp.Length1
      invariant dp[n, 0] == big && forall j :: 1 <= j < r ==> dp[n, j] == Split(prefix, n, j)
      invariant forall j :: r <= j < dp.Length1 ==> dp[n, j] == CellSoFar(prefix, n, j, -1, big)
      invariant RowsDone(dp, prefix, n, big)
      invariant dp[0, 0] == 0.0
      invariant forall i, j :: 0 <= i < dp.Length0 && 0 <= j < dp.Length1 && i != n ==> dp[i, j] == old(dp[i, j])
    {
      FillCell(cum, dp, prefix, n, r, big);
    }
  }

  /** The table the policy computes; it assigns no ranks. */
  method AssignBlocksDP2(costs: seq<real>, nranks: nat) returns (dp: array2<real>)
    requires nranks >= 1 && Nonnegative(costs)
    ensures fresh(dp) && dp.Length0 == |costs| + 1 && dp.Length1 == nranks + 1
    ensures forall n, r :: 0 <= n <= |costs| && 1 <= r <= nranks ==> dp[n, r] == Split(Prefixes(costs), n, r)
  {
    var total := Contiguous.Accumulate(costs);
    ghost var prefix := Prefixes(costs);
    PrefixesOfCosts(costs);
    var cum := CumulativeSums(costs);
    var big := total * 1000.0;
    dp := new real[|costs| + 1, nranks + 1]((i, j) => big);
    for nr := 0 to nranks + 1
      invariant forall j :: 0 <= j < nr ==> dp[0, j] == 0.0
      invariant IsUntouched(dp, 1, big) && IsCumulative(cum, prefix)
    {
      dp[0, nr] := 0.0;
    }
    FirstRow(dp, prefix, big);
    for n := 1 to |costs| + 1
      invariant dp[0, 0] == 0.0 && IsUntouched(dp, n, big) && IsCumulative(cum, prefix)
                  && prefix[|costs|] - prefix[0] <= big
      invariant RowsDone(dp, prefix, n, big)
    {
      assert prefix[n] <= prefix[|costs|];
      FillRow(cum, dp, prefix, n, big);
    }
  }

  lemma FirstRow(dp: array2<real>, prefix: seq<real>, big: real)
    requires dp.Length0 >= 1 && |prefix| >= 1 && Ascending(prefix)
    requires forall j :: 0 <= j < dp.Length1 ==> dp[0, j] == 0.0
    ensures RowsDone(dp, prefix, 1, big)
  {
    forall r | 1 <= r < dp.Length1 ensures Split(prefix, 0, r) == 0.0 {
      SplitIsBounded(prefix, 0, r);
    }
  }
}
