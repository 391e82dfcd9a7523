/**
 Longest-processing-time list scheduling (lb/src/lb_lspt.cc).

 The priority queue is seeded with load delta * i for rank i. Whatever order std::sort gives to blocks of equal
 cost, and whichever minimal element the queue returns, the result is an LptOutcome; the bounds are proved for
 every LptOutcome.
 */
module Lpt {
  import opened Sums
  import opened Placement
  import opened Sorting

  /** The load the queue holds for rank r once the first k blocks have been placed. */
  function QueueLoad(c: seq<real>, picks: seq<int>, k: nat, r: int, delta: real): real
    requires |c| == |picks| && k <= |c|
  {
    delta * r as real + Load(c[..k], picks[..k], r)
  }

  ghost predicate IsLeastLoaded(c: seq<real>, picks: seq<int>, k: nat, nranks: nat, delta: real)
    requires |c| == |picks| && k < |c|
  {
    forall q :: 0 <= q < nranks ==> QueueLoad(c, picks, k, picks[k], delta) <= QueueLoad(c, picks, k, q, delta)
  }

  /** At each step a rank of least queue load was picked. c lists the costs in processing order. */
  ghost predicate IsListSchedule(c: seq<real>, picks: seq<int>, nranks: nat, delta: real)
  {
    && IsPlacement(picks, |c|, nranks)
    && forall k :: 0 <= k < |c| ==> IsLeastLoaded(c, picks, k, nranks, delta)
  }

  /** ranklist is what some run of the scheduler with processing order `order` writes. */
  ghost predicate LptOutcome(costs: seq<real>, ranklist: seq<int>, order: seq<nat>, nranks: nat, delta: real)
  {
    && |ranklist| == |costs|
    && IsDescendingOrder(costs, order)
    && IsListSchedule(Permute(costs, order), Permute(ranklist, order), nranks, delta)
  }

  // ----- counting along a schedule -----

  /** A rank carries at least lo for each of its blocks when every block costs at least lo. */
  lemma {:induction false} LoadAtLeastTimes(c: seq<real>, p: seq<int>, q: int, lo: real)
    requires |c| == |p|
    requires forall k :: 0 <= k < |c| ==> lo <= c[k]
    ensures Times(Count(p, q), lo) <= Load(c, p, q)
  {
    var n := |c|;
    if n > 0 {
      LoadAtLeastTimes(c[..n - 1], p[..n - 1], q, lo);
    }
  }

  lemma {:induction false} LoadAtMostTimes(c: seq<real>, p: seq<int>, q: int, hi: real)
    requires |c| == |p|
    requires forall k :: 0 <= k < |c| ==> c[k] <= hi
    ensures Load(c, p, q) <= Times(Count(p, q), hi)
  {
    var n := |c|;
    if n > 0 {
      LoadAtMostTimes(c[..n - 1], p[..n - 1], q, hi);
    }
  }

  /** Cut a schedule in two. */
  lemma SplitAt(c: seq<real>, p: seq<int>, q: int, split: nat)
    requires |c| == |p| && split <= |c|
    ensures Load(c, p, q) == Load(c[..split], p[..split], q) + Load(c[split..], p[split..], q)
    ensures Count(p, q) == Count(p[..split], q) + Count(p[split..], q)
  {
    LoadAppend(c[..split], p[..split], c[split..], p[split..], q);
    CountAppend(p[..split], p[split..], q);
    assert c[..split] + c[split..] == c && p[..split] + p[split..] == p;
  }

  /** Two placements, or two stretches of one, with at most two blocks per rank between them. */
  lemma {:induction false} PairCountUpper(a: seq<int>, b: seq<int>, nranks: nat)
    requires forall q :: 0 <= q < nranks ==> Count(a, q) + Count(b, q) <= 2
    ensures TotalCount(a, nranks) + TotalCount(b, nranks) <= 2 * nranks
  {
    if nranks > 0 {
      PairCountUpper(a, b, nranks - 1);
    }
  }

  lemma {:induction false} PairCountLower(a: seq<int>, b: seq<int>, nranks: nat)
    requires forall q :: 0 <= q < nranks ==> Count(a, q) + Count(b, q) >= 2
    ensures TotalCount(a, nranks) + TotalCount(b, nranks) >= 2 * nranks
  {
    if nranks > 0 {
      PairCountLower(a, b, nranks - 1);
    }
  }

  lemma {:induction false} CountAtLeastOne(p: seq<int>, nranks: nat)
    requires forall q :: 0 <= q < nranks ==> Count(p, q) >= 1
    ensures TotalCount(p, nranks) >= nranks
  {
    if nranks > 0 {
      CountAtLeastOne(p, nranks - 1);
    }
  }

  // ----- the competitor -----

  /** Three blocks on a rank cost at least three times the smallest. */
  lemma ThreeBlocksTogether(c: seq<real>, p: seq<int>, q: int)
    requires |c| > 0 && Descending(c) && Nonnegative(c) && |p| == |c|
    requires Count(p, q) >= 3
    ensures 3.0 * c[|c| - 1] <= Load(c, p, q)
  {
    LoadAtLeastTimes(c, p, q, c[|c| - 1]);
    TimesMonotone(3, Count(p, q), c[|c| - 1]);
    SmallTimes(c[|c| - 1]);
  }

  /** A rank holding exactly two blocks, one of them among the w + 1 largest. */
  lemma BigBlockShared(c: seq<real>, p: seq<int>, q: int, w: nat)
    requires w < |c| && Descending(c) && Nonnegative(c) && |p| == |c|
    requires Count(p, q) == 2 && Count(p[..w + 1], q) >= 1
    ensures c[w] + c[|c| - 1] <= Load(c, p, q)
  {
    SplitAt(c, p, q, w + 1);
    LoadAtLeastTimes(c[..w + 1], p[..w + 1], q, c[w]);
    LoadAtLeastTimes(c[w + 1..], p[w + 1..], q, c[|c| - 1]);
    SmallTimes(c[w]);
    SmallTimes(c[|c| - 1]);
  }

  /**
   With more blocks than ranks and all blocks larger than bound/3, the competitor must put one of the
   w + 1 largest blocks together with another block: its load bounds c[w] plus the smallest cost.
   */
  lemma CompetitorPairsBigBlock(c: seq<real>, opt: seq<int>, nranks: nat, bound: real, w: nat)
    requires |c| > 0 && Descending(c) && Nonnegative(c)
    requires IsPlacement(opt, |c|, nranks) && MaxLoadAtMost(c, opt, nranks, bound)
    requires bound < 3.0 * c[|c| - 1]
    requires w < |c| && |c| + w == 2 * nranks
    ensures c[w] + c[|c| - 1] <= bound
  {
    forall q | 0 <= q < nranks ensures Count(opt, q) <= 2 {
      if Count(opt, q) >= 3 {
        ThreeBlocksTogether(c, opt, q);
      }
    }
    if forall q :: 0 <= q < nranks ==> Count(opt, q) + Count(opt[..w + 1], q) <= 2 {
      PairCountUpper(opt, opt[..w + 1], nranks);
      CountsAddUp(opt, nranks);
      CountsAddUp(opt[..w + 1], nranks);
      assert false;
    } else {
      var q :| 0 <= q < nranks && Count(opt, q) + Count(opt[..w + 1], q) > 2;
      SplitAt(c, opt, q, w + 1);
      BigBlockShared(c, opt, q, w);
    }
  }

  /** With more blocks than ranks (and all larger than bound/3) no competitor exists beyond two blocks per rank. */
  lemma AtMostTwicePerRank(c: seq<real>, opt: seq<int>, nranks: nat, bound: real)
    requires |c| > 0 && Descending(c) && Nonnegative(c)
    requires IsPlacement(opt, |c|, nranks) && MaxLoadAtMost(c, opt, nranks, bound)
    requires bound < 3.0 * c[|c| - 1]
    ensures |c| <= 2 * nranks
  {
    forall q | 0 <= q < nranks ensures Count(opt, q) + Count([], q) <= 2 {
      if Count(opt, q) >= 3 {
        ThreeBlocksTogether(c, opt, q);
      }
    }
    PairCountUpper(opt, [], nranks);
    CountsAddUp(opt, nranks);
  }

  // ----- the schedule -----

  /** A rank with at most one block, and none of the w largest, carries at most c[w]. */
  lemma LightRank(c: seq<real>, p: seq<int>, q: int, w: nat)
    requires w < |c| && Descending(c) && Nonnegative(c) && |p| == |c|
    requires Count(p, q) + Count(p[..w], q) <= 1
    ensures Load(c, p, q) <= c[w]
  {
    SplitAt(c, p, q, w);
    assert Count(p[..w], q) == 0;
    LoadAtMostTimes(c[..w], p[..w], q, c[0]);
    LoadAtMostTimes(c[w..], p[w..], q, c[w]);
    SmallTimes(c[0]);
    SmallTimes(c[w]);
  }

  /** Too few blocks to give every rank a big one or two small ones: some rank carries at most c[w]. */
  lemma SomeRankIsLight(c: seq<real>, picks: seq<int>, nranks: nat, w: nat) returns (q: nat)
    requires Descending(c) && Nonnegative(c)
    requires IsPlacement(picks, |c|, nranks)
    requires w < |c| && |c| + w < 2 * nranks
    ensures q < nranks && Load(c, picks, q) <= c[w]
  {
    if forall r :: 0 <= r < nranks ==> Count(picks, r) + Count(picks[..w], r) >= 2 {
      PairCountLower(picks, picks[..w], nranks);
      CountsAddUp(picks, nranks);
      CountsAddUp(picks[..w], nranks);
      assert false;
    }
    q :| 0 <= q < nranks && Count(picks, q) + Count(picks[..w], q) < 2;
    LightRank(c, picks, q, w);
  }

  lemma SomeRankIsEmpty(c: seq<real>, picks: seq<int>, nranks: nat) returns (q: nat)
    requires IsPlacement(picks, |c|, nranks) && |c| < nranks
    ensures q < nranks && Load(c, picks, q) == 0.0
  {
    if forall r :: 0 <= r < nranks ==> Count(picks, r) >= 1 {
      CountAtLeastOne(picks, nranks);
      CountsAddUp(picks, nranks);
      assert false;
    }
    q :| 0 <= q < nranks && Count(picks, q) < 1;
    CountPositive(picks, q);
    LoadOfAbsentRank(c, picks, q);
  }

  /** The largest load the queue is seeded with. */
  function SeedSpread(nranks: nat, delta: real): real
    requires nranks > 0
  {
    delta * (nranks - 1) as real
  }

  /** delta * (0 + 1 + ... + (nranks - 1)), what the queue is seeded with in total. */
  function SeedTotal(nranks: nat, delta: real): real
  {
    if nranks == 0 then 0.0 else SeedTotal(nranks - 1, delta) + delta * (nranks - 1) as real
  }

  lemma {:induction false} SeedTotalBound(k: nat, nranks: nat, delta: real)
    requires k <= nranks && 0 < nranks && 0.0 <= delta
    ensures SeedTotal(k, delta) <= Times(k, SeedSpread(nranks, delta))
  {
    if k > 0 {
      SeedTotalBound(k - 1, nranks, delta);
      SeedOrder(delta, (k - 1) as real, (nranks - 1) as real);
    }
  }

  lemma SeedOrder(delta: real, a: real, b: real)
    requires 0.0 <= delta && a <= b
    ensures delta * a <= delta * b
  {
  }

  /** The least queue load is at most the average queue load. */
  lemma {:induction false} LeastQueueLoad(c: seq<real>, picks: seq<int>, nranks: nat, delta: real, least: real)
    requires |c| == |picks|
    requires forall q :: 0 <= q < nranks ==> least <= delta * q as real + Load(c, picks, q)
    ensures Times(nranks, least) <= SeedTotal(nranks, delta) + TotalLoad(c, picks, nranks)
  {
    if nranks > 0 {
      LeastQueueLoad(c, picks, nranks - 1, delta, least);
    }
  }

  // ----- the bound -----

  /** The factor of Graham's bound for nranks identical ranks. */
  function GrahamFactor(nranks: nat): real
    requires nranks > 0
  {
    4.0 / 3.0 - 1.0 / (3.0 * nranks as real)
  }

  /** The bound proved for LPT: the factor times the best maximum load, plus the spread of the seeds. */
  function LptLimit(nranks: nat, bound: real, delta: real): real
    requires nranks > 0
  {
    GrahamFactor(nranks) * bound + SeedSpread(nranks, delta)
  }

  lemma GrahamFactorAtLeastOne(nranks: nat, bound: real)
    requires nranks > 0 && 0.0 <= bound
    ensures bound <= GrahamFactor(nranks) * bound
  {
    var m := nranks as real;
    assert 1.0 / (3.0 * m) <= 1.0 / 3.0 by {
      assert 3.0 <= 3.0 * m;
    }
    assert 1.0 <= GrahamFactor(nranks);
  }

  lemma LptLimitAtLeast(nranks: nat, bound: real, delta: real)
    requires nranks > 0 && 0.0 <= bound && 0.0 <= delta
    ensures bound <= LptLimit(nranks, bound, delta)
  {
    GrahamFactorAtLeastOne(nranks, bound);
    assert 0.0 <= delta * (nranks - 1) as real;
  }

  lemma WithoutLastBlock(c: seq<real>, opt: seq<int>, nranks: nat, bound: real)
    requires |c| > 0
    requires IsPlacement(opt, |c|, nranks) && MaxLoadAtMost(c, opt, nranks, bound)
    ensures Sum(c[..|c| - 1]) <= Times(nranks, bound) - c[|c| - 1]
  {
    AverageIsLowerBound(c, opt, nranks, bound);
  }

  /** Before its last block the rank was least loaded, so it was below what the competitor's bound leaves on average. */
  lemma LeastIsBelowAverage(c: seq<real>, picks: seq<int>, opt: seq<int>, nranks: nat, delta: real, bound: real)
    returns (least: real)
    requires |c| > 0 && Nonnegative(c) && 0.0 <= delta
    requires IsListSchedule(c, picks, nranks, delta)
    requires IsPlacement(opt, |c|, nranks) && MaxLoadAtMost(c, opt, nranks, bound)
    ensures least == QueueLoad(c, picks, |c| - 1, picks[|c| - 1], delta)
    ensures Times(nranks, least) <= Times(nranks, SeedSpread(nranks, delta)) + Times(nranks, bound) - c[|c| - 1]
  {
    var j := |c| - 1;
    var c', p' := c[..j], picks[..j];
    least := QueueLoad(c, picks, j, picks[j], delta);
    assert IsLeastLoaded(c, picks, j, nranks, delta);
    forall q | 0 <= q < nranks ensures least <= delta * q as real + Load(c', p', q) {
      assert least <= QueueLoad(c, picks, j, q, delta);
    }
    LeastQueueLoad(c', p', nranks, delta, least);
    LoadsAddUp(c', p', nranks);
    assert Times(nranks, least) <= SeedTotal(nranks, delta) + Sum(c');
    WithoutLastBlock(c, opt, nranks, bound);
    SeedTotalBound(nranks, nranks, delta);
  }

  /** The last block put on a rank, when that block is small: the rank was below average before. */
  lemma LastBlockSmall(c: seq<real>, picks: seq<int>, opt: seq<int>, nranks: nat, delta: real, bound: real)
    requires |c| > 0 && Nonnegative(c) && 0.0 <= delta
    requires IsListSchedule(c, picks, nranks, delta)
    requires IsPlacement(opt, |c|, nranks) && MaxLoadAtMost(c, opt, nranks, bound)
    requires 3.0 * c[|c| - 1] <= bound
    ensures Load(c, picks, picks[|c| - 1]) <= GrahamFactor(nranks) * bound + SeedSpread(nranks, delta)
  {
    var j, m := |c| - 1, nranks as real;
    var least := LeastIsBelowAverage(c, picks, opt, nranks, delta, bound);
    var seed := SeedSpread(nranks, delta);
    TimesIsProduct(nranks, least);
    TimesIsProduct(nranks, seed);
    TimesIsProduct(nranks, bound);
    DivideByRanks(m, least, seed, bound, c[j]);
    FinalStep(m, bound, c[j]);
    SeededLoad(c, picks, j, picks[j], nranks, delta);
  }

  /** The queue load overstates the real load, by at most the largest seed. */
  lemma SeededLoad(c: seq<real>, picks: seq<int>, k: nat, r: int, nranks: nat, delta: real)
    requires |c| == |picks| && k <= |c| && 0.0 <= delta && 0 <= r < nranks
    ensures Load(c[..k], picks[..k], r) <= QueueLoad(c, picks, k, r, delta)
            <= Load(c[..k], picks[..k], r) + SeedSpread(nranks, delta)
  {
    assert 0.0 <= delta * r as real <= delta * (nranks - 1) as real;
  }

  lemma DivideByRanks(m: real, least: real, seed: real, bound: real, small: real)
    requires 1.0 <= m && m * least <= m * seed + m * bound - small
    ensures least <= seed + bound - small / m
  {
    assert m * (small / m) == small;
    var x := seed + bound - small / m;
    assert m * x == m * seed + m * bound - small;
    if x < least {
      assert m * x < m * least;
    }
  }

  lemma FinalStep(m: real, bound: real, small: real)
    requires 1.0 <= m && 3.0 * small <= bound && 0.0 <= small
    ensures bound - small / m + small <= (4.0 / 3.0 - 1.0 / (3.0 * m)) * bound
  {
    var third := bound / 3.0;
    var inv := 1.0 / m;
    assert small / m == small * inv;
    assert inv <= 1.0;
    assert 1.0 / (3.0 * m) == inv / 3.0;
    assert small * (1.0 - inv) <= third * (1.0 - inv);
  }

  /** The same block when it is large: either it lands on an almost empty rank, or the competitor has an equal pair. */
  lemma LastBlockLarge(c: seq<real>, picks: seq<int>, opt: seq<int>, nranks: nat, delta: real, bound: real)
    requires |c| > 0 && Nonnegative(c) && Descending(c) && 0.0 <= delta
    requires IsListSchedule(c, picks, nranks, delta)
    requires IsPlacement(opt, |c|, nranks) && MaxLoadAtMost(c, opt, nranks, bound)
    requires bound < 3.0 * c[|c| - 1]
    ensures Load(c, picks, picks[|c| - 1]) <= bound + SeedSpread(nranks, delta)
  {
    var j := |c| - 1;
    var c', p' := c[..j], picks[..j];
    assert IsLeastLoaded(c, picks, j, nranks, delta);
    var q: nat;
    if j < nranks {
      q := SomeRankIsEmpty(c', p', nranks);
      LoadAtLeastBlock(c, opt, j);
      assert Load(c, opt, opt[j]) <= bound;
    } else {
      AtMostTwicePerRank(c, opt, nranks, bound);
      var w := 2 * nranks - 1 - j;
      q := SomeRankIsLight(c', p', nranks, w);
      CompetitorPairsBigBlock(c, opt, nranks, bound, w);
    }
    assert QueueLoad(c, picks, j, picks[j], delta) <= QueueLoad(c, picks, j, q, delta);
    SeededLoad(c, picks, j, q, nranks, delta);
    SeededLoad(c, picks, j, picks[j], nranks, delta);
  }

  /** Restricting both schedules to the first k blocks keeps what the bounds need. */
  lemma PrefixSchedule(c: seq<real>, picks: seq<int>, nranks: nat, delta: real, k: nat)
    requires IsListSchedule(c, picks, nranks, delta) && k <= |c|
    ensures IsListSchedule(c[..k], picks[..k], nranks, delta)
  {
    forall i | 0 <= i < k ensures IsLeastLoaded(c[..k], picks[..k], i, nranks, delta) {
      assert IsLeastLoaded(c, picks, i, nranks, delta);
      forall q | 0 <= q < nranks
        ensures QueueLoad(c[..k], picks[..k], i, picks[..k][i], delta) <= QueueLoad(c[..k], picks[..k], i, q, delta)
      {
        assert QueueLoad(c, picks, i, picks[i], delta) <= QueueLoad(c, picks, i, q, delta);
        assert c[..k][..i] == c[..i] && picks[..k][..i] == picks[..i];
      }
    }
  }

  /** Graham's bound in processing order, for any rank, by induction on the blocks placed after its last one. */
  lemma {:induction false} ScheduleBound(c: seq<real>, picks: seq<int>, opt: seq<int>, nranks: nat, delta: real,
                                         bound: real, r: int)
    requires nranks > 0 && Nonnegative(c) && Descending(c) && 0.0 <= delta && 0.0 <= bound
    requires IsListSchedule(c, picks, nranks, delta)
    requires IsPlacement(opt, |c|, nranks) && MaxLoadAtMost(c, opt, nranks, bound)
    ensures Load(c, picks, r) <= LptLimit(nranks, bound, delta)
  {
    var j := |c| - 1;
    LptLimitAtLeast(nranks, bound, delta);
    if j >= 0 {
      if picks[j] == r {
        if 3.0 * c[j] <= bound {
          LastBlockSmall(c, picks, opt, nranks, delta, bound);
        } else {
          LastBlockLarge(c, picks, opt, nranks, delta, bound);
        }
      } else {
        PrefixSchedule(c, picks, nranks, delta, j);
        forall q | 0 <= q < nranks ensures Load(c[..j], opt[..j], q) <= bound {
          LoadPrefix(c, opt, j, q);
        }
        ScheduleBound(c[..j], picks[..j], opt[..j], nranks, delta, bound, r);
      }
    }
  }

  /**
   Main result. Whatever placement is taken as competitor, LPT's maximum load is at most
   (4/3 - 1/(3m)) times the competitor's, plus what the seeded queue loads can distort.
   */
  lemma LptApproximation(costs: seq<real>, ranklist: seq<int>, order: seq<nat>, nranks: nat, delta: real,
                         competitor: seq<int>, bound: real)
    requires nranks > 0 && Nonnegative(costs) && 0.0 <= delta
    requires LptOutcome(costs, ranklist, order, nranks, delta)
    requires IsPlacement(competitor, |costs|, nranks) && MaxLoadAtMost(costs, competitor, nranks, bound)
    ensures MaxLoadAtMost(costs, ranklist, nranks, LptLimit(nranks, bound, delta))
  {
    var c := Permute(costs, order);
    var picks, opt := Permute(ranklist, order), Permute(competitor, order);
    LoadNonnegative(costs, competitor, 0);
    forall q | 0 <= q < nranks ensures Load(c, opt, q) <= bound {
      LoadPermutation(costs, competitor, order, q);
    }
    forall r | 0 <= r < nranks ensures Load(costs, ranklist, r) <= LptLimit(nranks, bound, delta) {
      LoadPermutation(costs, ranklist, order, r);
      ScheduleBound(c, picks, opt, nranks, delta, bound, r);
    }
  }

  // ----- coverage -----

  /** Every block gets a rank. */
  lemma LptIsPlacement(costs: seq<real>, ranklist: seq<int>, order: seq<nat>, nranks: nat, delta: real)
    requires LptOutcome(costs, ranklist, order, nranks, delta)
    ensures IsPlacement(ranklist, |costs|, nranks)
  {
    PermutationIsOnto(order, |costs|);
    forall b | 0 <= b < |costs| ensures 0 <= ranklist[b] < nranks {
      assert b in order;
      var k :| 0 <= k < |order| && order[k] == b;
      assert Permute(ranklist, order)[k] == ranklist[b];
    }
  }

  /** While rank q is empty, no rank gets a second block: q would have been less loaded. */
  lemma {:induction false} NoSecondBlockWhileEmpty(c: seq<real>, picks: seq<int>, nranks: nat, delta: real, q: int,
                                                   r: int)
    requires nranks > 0 && 0.0 <= delta && IsListSchedule(c, picks, nranks, delta)
    requires forall k :: 0 <= k < |c| ==> SeedSpread(nranks, delta) < c[k]
    requires 0 <= q < nranks && q !in picks && 0 <= r < nranks
    ensures Count(picks, r) <= 1
  {
    var j := |c| - 1;
    assert 0.0 <= delta * (nranks - 1) as real;
    if j >= 0 {
      var c', p' := c[..j], picks[..j];
      assert q !in p';
      PrefixSchedule(c, picks, nranks, delta, j);
      NoSecondBlockWhileEmpty(c', p', nranks, delta, q, r);
      LoadOfAbsentRank(c', p', q);
      SeededLoad(c, picks, j, q, nranks, delta);
      SeededLoad(c, picks, j, r, nranks, delta);
      assert IsLeastLoaded(c, picks, j, nranks, delta);
      if picks[j] == r {
        assert QueueLoad(c, picks, j, r, delta) <= QueueLoad(c, picks, j, q, delta);
        CountPositive(p', r);
        if r in p' {
          var k :| 0 <= k < j && p'[k] == r;
          LoadAtLeastBlock(c', p', k);
        }
      }
    }
  }

  lemma {:induction false} AtMostOneEach(p: seq<int>, nranks: nat, q: int)
    requires forall r :: 0 <= r < nranks ==> Count(p, r) <= 1
    requires 0 <= q ==> Count(p, q) == 0
    ensures TotalCount(p, nranks) <= if 0 <= q < nranks then nranks - 1 else nranks
  {
    if nranks > 0 {
      AtMostOneEach(p, nranks - 1, q);
    }
  }

  /** While empty ranks remain they are taken in rank order: the seeds decide, and no rank gets a second block. */
  lemma {:induction false} InRankOrder(c: seq<real>, picks: seq<int>, nranks: nat, delta: real, k: nat)
    requires IsListSchedule(c, picks, nranks, delta) && 0.0 < delta && 0 < nranks <= |c| && k <= nranks
    requires Nonnegative(c) && forall b :: 0 <= b < |c| ==> SeedSpread(nranks, delta) < c[b]
    ensures forall j :: 0 <= j < k ==> picks[j] == j
  {
    if k > 0 {
      var i := k - 1;
      InRankOrder(c, picks, nranks, delta, i);
      assert IsLeastLoaded(c, picks, i, nranks, delta);
      EmptyRankWaits(c, picks, i, i, delta);
      if picks[i] < i {
        BusyRankWaits(c, picks, i, picks[i], nranks, delta);
      } else if picks[i] > i {
        EmptyRankWaits(c, picks, i, picks[i], delta);
        SeedGrows(delta, i as real, picks[i] as real);
      }
    }
  }

  lemma EmptyRankWaits(c: seq<real>, picks: seq<int>, k: nat, q: int, delta: real)
    requires |c| == |picks| && k <= |c| && k <= q && forall j :: 0 <= j < k ==> picks[j] == j
    ensures QueueLoad(c, picks, k, q, delta) == delta * q as real
  {
    LoadOfAbsentRank(c[..k], picks[..k], q);
  }

  lemma BusyRankWaits(c: seq<real>, picks: seq<int>, k: nat, q: nat, nranks: nat, delta: real)
    requires |c| == |picks| && q < k < nranks && k <= |c| && picks[q] == q && 0.0 < delta && Nonnegative(c)
    requires SeedSpread(nranks, delta) < c[q]
    ensures QueueLoad(c, picks, k, q, delta) > delta * k as real
  {
    LoadAtLeastBlock(c[..k], picks[..k], q);
    SeedsBelow(delta, q, k, nranks);
    assert c[..k][q] == c[q] && picks[..k][q] == q;
  }

  lemma SeedsBelow(delta: real, q: nat, k: nat, nranks: nat)
    requires 0.0 <= delta && k < nranks
    ensures 0.0 <= delta * q as real && delta * k as real <= SeedSpread(nranks, delta)
  {
    SeedOrder(delta, 0.0, q as real);
    SeedOrder(delta, k as real, (nranks - 1) as real);
  }

  lemma SeedGrows(delta: real, a: real, b: real)
    requires 0.0 < delta && a < b
    ensures delta * a < delta * b
  {
  }

  /**
   The seeds: with a positive delta and costs above the seed spread the nranks largest blocks go to the ranks in order,
   the largest to rank 0.
   */
  lemma LptStartsInRankOrder(costs: seq<real>, ranklist: seq<int>, order: seq<nat>, nranks: nat, delta: real, k: nat)
    requires k < nranks <= |costs| && 0.0 < delta && LptOutcome(costs, ranklist, order, nranks, delta)
    requires forall b :: 0 <= b < |costs| ==> SeedSpread(nranks, delta) < costs[b]
    ensures ranklist[order[k]] == k
  {
    var c, picks := Permute(costs, order), Permute(ranklist, order);
    SeedOrder(delta, 0.0, (nranks - 1) as real);
    InRankOrder(c, picks, nranks, delta, nranks);
  }

  /** With as many blocks as ranks, each costing more than the largest seed, no rank stays empty. */
  lemma LptUsesEveryRank(costs: seq<real>, ranklist: seq<int>, order: seq<nat>, nranks: nat, delta: real)
    requires 0 < nranks <= |costs| && 0.0 <= delta
    requires forall b :: 0 <= b < |costs| ==> SeedSpread(nranks, delta) < costs[b]
    requires LptOutcome(costs, ranklist, order, nranks, delta)
    ensures UsesEveryRank(ranklist, nranks)
  {
    var c, picks := Permute(costs, order), Permute(ranklist, order);
    forall q | 0 <= q < nranks ensures q in ranklist {
      if q !in picks {
        forall r | 0 <= r < nranks ensures Count(picks, r) <= 1 {
          NoSecondBlockWhileEmpty(c, picks, nranks, delta, q, r);
        }
        CountPositive(picks, q);
        AtMostOneEach(picks, nranks, q);
        CountsAddUp(picks, nranks);
        assert false;
      }
      var k :| 0 <= k < |picks| && picks[k] == q;
      assert ranklist[order[k]] == q;
    }
  }

  // ----- the algorithm -----

  /** A queue entry of the source: a rank and its load. */
  datatype RankLoad = RankLoad(id: int, load: real)

  function Entry(c: seq<real>, picks: seq<int>, r: int, delta: real): RankLoad
    requires |c| == |picks|
  {
    RankLoad(r, delta * r as real + Load(c, picks, r))
  }

  ghost predicate QueueHolds(queue: set<RankLoad>, c: seq<real>, picks: seq<int>, nranks: nat, delta: real)
    requires |c| == |picks|
  {
    && (forall e :: e in queue ==> 0 <= e.id < nranks && e == Entry(c, picks, e.id, delta))
    && (forall r :: 0 <= r < nranks ==> Entry(c, picks, r, delta) in queue)
  }

  lemma {:induction false} LeastExists(queue: set<RankLoad>) returns (e: RankLoad)
    requires queue != {}
    ensures e in queue && forall f :: f in queue ==> e.load <= f.load
  {
    var x :| x in queue;
    var rest := queue - {x};
    e := x;
    if rest != {} {
      e := LeastExists(rest);
      if x.load < e.load {
        e := x;
      }
    }
    assert forall f :: f in queue ==> f == x || f in rest;
  }

  /** Every rank of the queue is at least as loaded as the popped one. */
  lemma ScheduleStep(c: seq<real>, picks: seq<int>, nranks: nat, delta: real, cost: real, r: int)
    requires IsListSchedule(c, picks, nranks, delta) && 0 <= r < nranks
    requires forall q :: 0 <= q < nranks ==>
               delta * r as real + Load(c, picks, r) <= delta * q as real + Load(c, picks, q)
    ensures IsListSchedule(c + [cost], picks + [r], nranks, delta)
  {
    var c', p' := c + [cost], picks + [r];
    assert c'[..|c|] == c && p'[..|c|] == picks;
    forall i | 0 <= i < |c'| ensures IsLeastLoaded(c', p', i, nranks, delta) {
      assert c'[..i] == c[..i] && p'[..i] == picks[..i];
      if i < |c| {
        assert IsLeastLoaded(c, picks, i, nranks, delta);
        forall q | 0 <= q < nranks ensures QueueLoad(c', p', i, p'[i], delta) <= QueueLoad(c', p', i, q, delta) {
          assert QueueLoad(c, picks, i, picks[i], delta) <= QueueLoad(c, picks, i, q, delta);
        }
      }
    }
  }

  /** Popping the least entry and pushing it back with the block's cost. */
  lemma QueueStep(queue: set<RankLoad>, c: seq<real>, picks: seq<int>, nranks: nat, delta: real, least: RankLoad,
                  cost: real)
    requires |c| == |picks| && QueueHolds(queue, c, picks, nranks, delta)
    requires least in queue
    ensures QueueHolds(queue - {least} + {RankLoad(least.id, least.load + cost)}, c + [cost], picks + [least.id],
              nranks, delta)
  {
    var c', p' := c + [cost], picks + [least.id];
    var pushed := RankLoad(least.id, least.load + cost);
    var queue' := queue - {least} + {pushed};
    assert c'[..|c|] == c && p'[..|c|] == picks;
    assert pushed == Entry(c', p', least.id, delta);
    forall e | e in queue' ensures 0 <= e.id < nranks && e == Entry(c', p', e.id, delta) {
      if e != pushed {
        assert e in queue && e == Entry(c, picks, e.id, delta);
      }
    }
    forall r | 0 <= r < nranks ensures Entry(c', p', r, delta) in queue' {
      assert Entry(c, picks, r, delta) in queue;
    }
  }

  /** One iteration: the popped rank takes the next block. */
  lemma PopPush(queue: set<RankLoad>, c: seq<real>, picks: seq<int>, k: nat, nranks: nat, delta: real, least: RankLoad)
    requires k < |c| && |picks| == k
    requires QueueHolds(queue, c[..k], picks, nranks, delta) && IsListSchedule(c[..k], picks, nranks, delta)
    requires least in queue && forall e :: e in queue ==> least.load <= e.load
    ensures QueueHolds(queue - {least} + {RankLoad(least.id, least.load + c[k])}, c[..k + 1], picks + [least.id],
              nranks, delta)
    ensures IsListSchedule(c[..k + 1], picks + [least.id], nranks, delta)
  {
    forall q | 0 <= q < nranks
      ensures delta * least.id as real + Load(c[..k], picks, least.id) <= delta * q as real + Load(c[..k], picks, q)
    {
      assert Entry(c[..k], picks, q, delta) in queue;
    }
    ScheduleStep(c[..k], picks, nranks, delta, c[k], least.id);
    QueueStep(queue, c[..k], picks, nranks, delta, least, c[k]);
    assert c[..k + 1] == c[..k] + [c[k]];
  }

  lemma QueueHasLeast(queue: set<RankLoad>, c: seq<real>, picks: seq<int>, nranks: nat, delta: real)
    requires |c| == |picks| && QueueHolds(queue, c, picks, nranks, delta) && nranks > 0
    ensures exists e :: e in queue && forall f :: f in queue ==> e.load <= f.load
  {
    assert Entry(c, picks, 0, delta) in queue;
    var e := LeastExists(queue);
  }

  /** Seeds the queue: rank i starts with load delta * i. */
  method SeedQueue(nranks: nat, delta: real) returns (queue: set<RankLoad>)
    ensures QueueHolds(queue, [], [], nranks, delta)
  {
    queue := {};
    for i := 0 to nranks
      invariant QueueHolds(queue, [], [], i, delta)
    {
      assert Entry([], [], i, delta) == RankLoad(i, delta * i as real);
      queue := queue + {RankLoad(i, delta * i as real)};
    }
  }

  /** The list holds the picks so far at the indices processed so far. */
  ghost predicate Follows(list: seq<int>, order: seq<nat>, picks: seq<int>)
  {
    |picks| <= |order| && forall i :: 0 <= i < |picks| ==> order[i] < |list| && list[order[i]] == picks[i]
  }

  lemma FollowsStep(list: seq<int>, order: seq<nat>, picks: seq<int>, r: int)
    requires IsPermutation(order, |list|) && |picks| < |order| && Follows(list, order, picks)
    ensures Follows(list[order[|picks|] := r], order, picks + [r])
  {
  }

  lemma FollowsAll(list: seq<int>, order: seq<nat>, picks: seq<int>)
    requires IsPermutation(order, |list|) && |picks| == |order| && Follows(list, order, picks)
    ensures Permute(list, order) == picks
  {
  }

  /** The assignment loop over the sorted indices. */
  method AssignInOrder(costs: seq<real>, order: seq<nat>, ranklist: array<int>, nranks: nat, delta: real)
    requires nranks > 0 || |costs| == 0
    requires ranklist.Length == |costs| && IsDescendingOrder(costs, order)
    modifies ranklist
    ensures LptOutcome(costs, ranklist[..], order, nranks, delta)
  {
    var queue := SeedQueue(nranks, delta);
    ghost var c := Permute(costs, order);
    ghost var picks: seq<int> := [];
    assert c[..0] == [];
    for k := 0 to |order|
      invariant |picks| == k
      invariant Follows(ranklist[..], order, picks)
      invariant QueueHolds(queue, c[..k], picks, nranks, delta)
      invariant IsListSchedule(c[..k], picks, nranks, delta)
    {
      var idx := order[k];
      QueueHasLeast(queue, c[..k], picks, nranks, delta);
      var least :| least in queue && forall e :: e in queue ==> least.load <= e.load;
      PopPush(queue, c, picks, k, nranks, delta, least);
      FollowsStep(ranklist[..], order, picks, least.id);
      ghost var written := ranklist[..][idx := least.id];
      ranklist[idx] := least.id;
      assert ranklist[..] == written;
      picks := picks + [least.id];
      queue := queue - {least} + {RankLoad(least.id, least.load + costs[idx])};
    }
    assert c[..|order|] == c;
    FollowsAll(ranklist[..], order, picks);
  }

  /** With a rank to put blocks on, the vector comes back filled by some run of the scheduler. */
  method AssignBlocksLPT(costs: seq<real>, nranks: nat, delta: real) returns (ranklist: array<int>)
    requires nranks > 0 || |costs| == 0
    ensures fresh(ranklist) && ranklist.Length == |costs|
    ensures exists order :: LptOutcome(costs, ranklist[..], order, nranks, delta)
  {
    ranklist := new int[|costs|](_ => -1);
    var order := SortIndices(costs);
    AssignInOrder(costs, order, ranklist, nranks, delta);
  }
}
