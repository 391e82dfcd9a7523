/**
 What CPLX's choice between its solutions is worth (lb/src/lb_cplx.cc, AssignBlocksV2): it compares maximum loads
 truncated to integers, so it may keep an alternative that is worse than the main solution. By how much, and for which
 costs never.
 */
module Choice {
  import opened Sums
  import opened Placement
  import opened Layouts
  import opened Cdp
  import opened Lpt
  import opened Rebalance
  import opened Cplx

  // ----- at most one unit -----

  /** Loads whose truncated maximum is at most the main solution's are less than one above its maximum. */
  lemma ChosenWithinUnit(costs: seq<real>, start: seq<int>, nranks: nat, nlpt: int, delta: real, trail: seq<Solution>,
                         m: real)
    requires IsTrail(costs, start, nranks, nlpt, delta, trail) && MaxLoadAtMost(costs, trail[0].ranks, nranks, m)
    ensures |Last(trail).ranks| == |costs|
    ensures forall r :: 0 <= r < nranks ==> Load(costs, Last(trail).ranks, r) < m + 1.0
  {
    LastSolution(costs, start, nranks, nlpt, delta, trail);
    var main, chosen := trail[0], Last(trail);
    var top :| 0 <= top < nranks && Load(costs, main.ranks, top).Floor == main.costMax;
    assert Load(costs, main.ranks, top) <= m;
    forall r | 0 <= r < nranks ensures Load(costs, chosen.ranks, r) < m + 1.0 {
      assert Load(costs, chosen.ranks, r).Floor <= main.costMax;
    }
  }

  // ----- costs that are multiples of a unit -----

  ghost predicate IsMultiple(x: real, u: real)
  {
    exists n: nat :: x == Times(n, u)
  }

  ghost predicate AreMultiples(costs: seq<real>, u: real)
  {
    forall b :: 0 <= b < |costs| ==> IsMultiple(costs[b], u)
  }

  lemma MultiplesAdd(x: real, y: real, u: real)
    requires IsMultiple(x, u) && IsMultiple(y, u)
    ensures IsMultiple(x + y, u)
  {
    var m: nat :| x == Times(m, u);
    var n: nat :| y == Times(n, u);
    TimesSplit(m, n, u);
    assert x + y == Times(m + n, u);
  }

  lemma {:induction false} LoadIsMultiple(costs: seq<real>, ranks: seq<int>, r: int, u: real)
    requires |costs| == |ranks| && AreMultiples(costs, u)
    ensures IsMultiple(Load(costs, ranks, r), u)
  {
    assert Times(0, u) == 0.0;
    var n := |costs| - 1;
    if n >= 0 {
      LoadIsMultiple(costs[..n], ranks[..n], r, u);
      if ranks[n] == r {
        MultiplesAdd(Load(costs[..n], ranks[..n], r), costs[n], u);
      }
    }
  }

  /** Different multiples of u are at least u apart. */
  lemma MultiplesApart(x: real, y: real, u: real)
    requires 0.0 < u && IsMultiple(x, u) && IsMultiple(y, u) && x < y
    ensures x + u <= y
  {
    var m: nat :| x == Times(m, u);
    var n: nat :| y == Times(n, u);
    if n <= m {
      TimesMonotone(n, m, u);
    } else {
      TimesMonotone(m + 1, n, u);
      assert Times(m + 1, u) == Times(m, u) + u;
    }
  }

  /** Costs that are multiples of a unit of at least 1: the choice is never worse than the main solution. */
  lemma ChosenNoWorse(costs: seq<real>, start: seq<int>, nranks: nat, nlpt: int, delta: real, trail: seq<Solution>,
                      m: real, u: real)
    requires IsTrail(costs, start, nranks, nlpt, delta, trail) && MaxLoadAtMost(costs, trail[0].ranks, nranks, m)
    requires AreMultiples(costs, u) && 1.0 <= u
    ensures |Last(trail).ranks| == |costs| && MaxLoadAtMost(costs, Last(trail).ranks, nranks, m)
  {
    LastSolution(costs, start, nranks, nlpt, delta, trail);
    var main, chosen := trail[0], Last(trail);
    var top :| 0 <= top < nranks && Load(costs, main.ranks, top).Floor == main.costMax;
    var best := Load(costs, main.ranks, top);
    assert best <= m;
    LoadIsMultiple(costs, main.ranks, top, u);
    forall r | 0 <= r < nranks ensures Load(costs, chosen.ranks, r) <= m {
      var x := Load(costs, chosen.ranks, r);
      assert x.Floor <= main.costMax;
      LoadIsMultiple(costs, chosen.ranks, r, u);
      if best < x {
        MultiplesApart(best, x, u);
      }
    }
  }

  // ----- a worse choice for every smaller unit -----

  /** A multiple of u, counted from `from` on, that the next multiple shares its integer part with. */
  lemma {:induction false} SameFloor(from: nat, u: real, gap: real, budget: nat) returns (k: nat)
    requires 0.0 < u < 1.0 && gap == 1.0 - u
    requires Times(from, u) - Times(from, u).Floor as real < Times(budget, gap)
    ensures from <= k && Times(k, u).Floor == (Times(k, u) + u).Floor
    decreases budget
  {
    var x := Times(from, u);
    if x.Floor == (x + u).Floor {
      k := from;
    } else {
      assert Times(from + 1, u) == x + u;
      assert (x + u).Floor == x.Floor + 1;
      assert budget > 0;
      k := SameFloor(from + 1, u, gap, budget - 1);
    }
  }

  lemma Enough(gap: real) returns (budget: nat)
    requires 0.0 < gap
    ensures 1.0 <= Times(budget, gap)
  {
    var x := 1.0 / gap;
    assert x * gap == 1.0;
    budget := x.Floor + 1;
    TimesIsProduct(budget, gap);
    AtLeastOne(x, budget as real, gap);
  }

  lemma AtLeastOne(x: real, y: real, gap: real)
    requires 0.0 < gap && x * gap == 1.0 && x <= y
    ensures 1.0 <= y * gap
  {
  }

  /** The family: a block of cost x between two blocks of cost u. */
  function Between(x: real, u: real): (costs: seq<real>)
    ensures |costs| == 3
  {
    [u, x, u]
  }

  lemma PrefixesOfThree(a: real, b: real, c: real)
    ensures var prefix := Prefixes([a, b, c]);
            prefix[0] == 0.0 && prefix[1] == a && prefix[2] == a + b && prefix[3] == a + b + c == Sum([a, b, c])
  {
    var s := [a, b, c];
    assert s[..0] == [] && s[..1] == [] + [a] && s[..2] == [a] + [b] && s[..3] == [a, b] + [c] == s;
    SumSingleton(a);
    SumAppend([a], [b]);
    SumSingleton(b);
    SumAppend([a, b], [c]);
    SumSingleton(c);
  }

  /** Both splits of the blocks cost u + x; then the short chunk comes last. */
  lemma ShortChunkLast(prefix: seq<real>, x: real, u: real)
    requires |prefix| == 4 && 0.0 < u <= x
    requires prefix[0] == 0.0 && prefix[1] == u && prefix[2] == u + x && prefix[3] == u + x + u
    ensures TakesA(prefix, 1, 2, 1, 1)
  {
    assert Best(prefix, 1, 2, 0, 0) == 0.0;
    assert Best(prefix, 1, 2, 0, 1) == u + x;
    assert Best(prefix, 1, 2, 1, 0) == u;
  }

  lemma SizesOfThree(choice: (nat, nat) -> bool)
    requires choice(1, 1)
    ensures ChosenSizes(choice, 1, 2, 1, 1) == [2, 1]
  {
    ChosenSizesStep(choice, 1, 2, 1, 1, 0, 1);
    ChosenSizesStep(choice, 1, 2, 0, 1, 0, 0);
  }

  lemma LayoutOfThree()
    ensures Layout([2, 1]) == [0, 0, 1]
  {
    LayoutAppend([2], 1);
    LayoutAppend([], 2);
    assert [2] + [1] == [2, 1] && [] + [2] == [2];
    assert Run(2, 0) == [0, 0] && Run(1, 1) == [1];
  }

  /** CDP finds both splits equally good and puts the shorter chunk last. */
  lemma StartOfBetween(x: real, u: real)
    requires 0.0 < u <= x
    ensures IsStart(Between(x, u), [0, 0, 1], 2)
  {
    var costs := Between(x, u);
    PrefixesOfThree(u, x, u);
    ShortChunkLast(Prefixes(costs), x, u);
    SizesOfThree(Choices(Prefixes(costs), 1, 2));
    LayoutOfThree();
    assert |costs| % 2 == 1 && 3 / 2 == 1;
  }

  // ----- the two solutions -----

  /** The main solution: LPT puts the large block alone. */
  function Spread(x: real): Solution
  {
    Solution([0, 1], [1, 0, 1], x.Floor)
  }

  /** The alternative: one rank is rescheduled on its own, so nothing moves. */
  function Unchanged(x: real, u: real): Solution
  {
    Solution([0], [0, 0, 1], (x + u).Floor)
  }

  lemma LoadsOfBetween(x: real, u: real)
    ensures Load(Between(x, u), [0, 0, 1], 0) == u + x && Load(Between(x, u), [0, 0, 1], 1) == u
    ensures Load(Between(x, u), [1, 0, 1], 0) == x && Load(Between(x, u), [1, 0, 1], 1) == u + u
    ensures Loads(Between(x, u), [0, 0, 1], 2) == [u + x, u]
  {
    LoadsOfThree(u, x, u, 0, 0, 1, 0);
    LoadsOfThree(u, x, u, 0, 0, 1, 1);
    LoadsOfThree(u, x, u, 1, 0, 1, 0);
    LoadsOfThree(u, x, u, 1, 0, 1, 1);
  }

  /** The list schedule of [x, u, u]: the large block on rank 0, both others on rank 1. */
  lemma ScheduleOfBetween(x: real, u: real, delta: real)
    requires 0.0 < u && u + u <= x && 0.0 <= delta && delta + u <= x
    ensures IsListSchedule([x, u, u], [0, 1, 1], 2, delta)
  {
    forall k | 0 <= k < 3 ensures IsLeastLoaded([x, u, u], [0, 1, 1], k, 2, delta) {
      PickOfBetween(x, u, delta, k);
    }
  }

  lemma PickOfBetween(x: real, u: real, delta: real, k: nat)
    requires 0.0 < u && u + u <= x && 0.0 <= delta && delta + u <= x && k < 3
    ensures IsLeastLoaded([x, u, u], [0, 1, 1], k, 2, delta)
  {
    var c, picks := [x, u, u], [0, 1, 1];
    assert c[..0] == [] && c[..1] == [x] && c[..2] == [x, u];
    assert picks[..0] == [] && picks[..1] == [0] && picks[..2] == [0, 1];
    forall q | 0 <= q < 2
      ensures QueueLoad(c, picks, k, picks[k], delta) <= QueueLoad(c, picks, k, q, delta)
    {
      LoadOfOne(x, 0, q);
      LoadOfOne(x, 0, picks[k]);
      LoadOfTwo(x, u, 0, 1, q);
      LoadOfTwo(x, u, 0, 1, picks[k]);
    }
  }

  lemma LoadOfOne(a: real, p: int, r: int)
    ensures Load([a], [p], r) == if p == r then a else 0.0
  {
    LoadLast([], [], a, p, r);
    assert [] + [a] == [a] && [] + [p] == [p];
  }

  lemma LoadOfTwo(a: real, b: real, p: int, q: int, r: int)
    ensures Load([a, b], [p, q], r) == (if p == r then a else 0.0) + (if q == r then b else 0.0)
  {
    LoadLast([a], [p], b, q, r);
    LoadOfOne(a, p, r);
    assert [a] + [b] == [a, b] && [p] + [q] == [p, q];
  }

  lemma SpreadOutcome(x: real, u: real, delta: real)
    requires 0.0 < u && u + u <= x && 0.0 <= delta && delta + u <= x
    ensures LptOutcome(Between(x, u), [1, 0, 1], [1, 0, 2], 2, delta)
  {
    ScheduleOfBetween(x, u, delta);
    var order: seq<nat> := [1, 0, 2];
    assert Permute(Between(x, u), order) == [x, u, u];
    assert Permute([1, 0, 1], order) == [0, 1, 1];
  }

  lemma AllBlocks()
    ensures BlocksOn([0, 0, 1], [0, 1]) == [0, 1, 2]
    ensures BlocksOn([0, 0, 1], [0]) == [0, 1]
  {
    assert [0, 0, 1][..2] == [0, 0] && [0, 0][..1] == [0] && [0][..0] == [];
  }

  /** A rebalanced placement, from its parts. */
  lemma RebalancedBy(costs: seq<real>, start: seq<int>, result: seq<int>, selected: seq<int>, blocks: seq<nat>,
                     a: seq<int>, order: seq<nat>, delta: real)
    requires |costs| == |start| == |result| && Distinct(selected) && blocks == BlocksOn(start, selected)
    requires LptOutcome(Permute(costs, blocks), a, order, |selected|, delta)
    requires forall i :: 0 <= i < |a| ==> 0 <= a[i] < |selected| && result[blocks[i]] == selected[a[i]]
    requires forall b :: 0 <= b < |start| && start[b] !in selected ==> result[b] == start[b]
    ensures IsRebalanced(costs, start, result, selected, a, order, delta)
  {
    MergeIsUnique(start, selected, Relabel(a, selected), result);
  }

  lemma SpreadIsRebalanced(x: real, u: real, delta: real)
    requires 0.0 < u && u + u <= x && 0.0 <= delta && delta + u <= x
    ensures IsRebalanced(Between(x, u), [0, 0, 1], [1, 0, 1], [0, 1], [1, 0, 1], [1, 0, 2], delta)
  {
    AllBlocks();
    assert Permute(Between(x, u), [0, 1, 2]) == Between(x, u);
    SpreadOutcome(x, u, delta);
    RebalancedBy(Between(x, u), [0, 0, 1], [1, 0, 1], [0, 1], [0, 1, 2], [1, 0, 1], [1, 0, 2], delta);
  }

  lemma UnchangedOutcome(x: real, u: real, delta: real)
    requires 0.0 < u <= x
    ensures LptOutcome([u, x], [0, 0], [1, 0], 1, delta)
  {
    var order: seq<nat> := [1, 0];
    assert Permute([u, x], order) == [x, u] && Permute([0, 0], order) == [0, 0];
  }

  lemma UnchangedIsRebalanced(x: real, u: real, delta: real)
    requires 0.0 < u <= x
    ensures IsRebalanced(Between(x, u), [0, 0, 1], [0, 0, 1], [0], [0, 0], [1, 0], delta)
  {
    AllBlocks();
    assert Permute(Between(x, u), [0, 1]) == [u, x];
    UnchangedOutcome(x, u, delta);
    RebalancedBy(Between(x, u), [0, 0, 1], [0, 0, 1], [0], [0, 1], [0, 0], [1, 0], delta);
  }

  // ----- what is selected -----

  lemma SelectionsOfTwo(a: real, b: real, avg: real)
    requires b < a && avg < a
    ensures IsSelection([a, b], avg, 2, [0, 1]) && IsSelection([a, b], avg, 1, [0])
  {
    var order: seq<nat> := [0, 1];
    var keys := [a, b];
    assert Permute(keys, order) == keys;
    StartSum(keys);
    assert SpanMean(keys, Span(1, 0)) == a;
    GrowStep(keys, avg, 2, Span(1, 0));
    assert Grow(keys, avg, 2, Span(1, 0)) == Span(1, 1);
    assert Ends(order, Span(1, 1)) == [0, 1] && Ends(order, Span(1, 0)) == [0];
    assert IsSelectionBy(keys, avg, 2, [0, 1], order);
    assert IsSelectionBy(keys, avg, 1, [0], order);
  }

  // ----- the choice -----

  lemma MaximaOfBetween(x: real, u: real)
    requires 0.0 < u && u + u <= x
    ensures IsTruncatedMax(Between(x, u), [1, 0, 1], 2, x.Floor)
    ensures IsTruncatedMax(Between(x, u), [0, 0, 1], 2, (x + u).Floor)
  {
    LoadsOfBetween(x, u);
    assert (u + u).Floor <= x.Floor && u.Floor <= (x + u).Floor;
  }

  /** Both selections, from the loads of the start. */
  lemma SelectionsOfBetween(x: real, u: real)
    requires 0.0 < u && u + u <= x
    ensures var costs := Between(x, u);
            var loads := Loads(costs, [0, 0, 1], 2);
            IsSelection(loads, Sum(costs) / 2 as real, 2, [0, 1]) && IsSelection(loads, Sum(costs) / 2 as real, 1, [0])
  {
    LoadsOfBetween(x, u);
    PrefixesOfThree(u, x, u);
    SelectionsOfTwo(u + x, u, Sum(Between(x, u)) / 2 as real);
  }

  /** A solution, from its parts. */
  lemma PartialBy(costs: seq<real>, start: seq<int>, nranks: nat, nlpt: nat, delta: real, s: Solution, a: seq<int>,
                  order: seq<nat>)
    requires 0 < nranks && 0 < |s.selected| <= nlpt && |s.ranks| == |costs|
    requires forall i :: 0 <= i < |s.selected| ==> 0 <= s.selected[i] < nranks
    requires IsRebalanced(costs, start, s.ranks, s.selected, a, order, delta)
    requires IsTruncatedMax(costs, s.ranks, nranks, s.costMax)
    requires IsSelection(Loads(costs, start, nranks), Sum(costs) / nranks as real, nlpt, s.selected)
    ensures IsPartial(costs, start, nranks, nlpt, delta, s)
  {
  }

  lemma SpreadIsPartial(x: real, u: real, delta: real)
    requires 0.0 < u && u + u <= x && 0.0 <= delta && delta + u <= x
    ensures IsPartial(Between(x, u), [0, 0, 1], 2, 2, delta, Spread(x))
  {
    MaximaOfBetween(x, u);
    SelectionsOfBetween(x, u);
    SpreadIsRebalanced(x, u, delta);
    PartialBy(Between(x, u), [0, 0, 1], 2, 2, delta, Spread(x), [1, 0, 1], [1, 0, 2]);
  }

  lemma UnchangedIsPartial(x: real, u: real, delta: real)
    requires 0.0 < u && u + u <= x
    ensures IsPartial(Between(x, u), [0, 0, 1], 2, 1, delta, Unchanged(x, u))
  {
    MaximaOfBetween(x, u);
    SelectionsOfBetween(x, u);
    UnchangedIsRebalanced(x, u, delta);
    PartialBy(Between(x, u), [0, 0, 1], 2, 1, delta, Unchanged(x, u), [0, 0], [1, 0]);
  }

  lemma SpreadLoad(x: real, u: real)
    requires 0.0 < u && u + u <= x
    ensures MaxLoadAtMost(Between(x, u), Spread(x).ranks, 2, x)
  {
    LoadsOfBetween(x, u);
    forall r | 0 <= r < 2 ensures Load(Between(x, u), [1, 0, 1], r) <= x {
      assert r == 0 || r == 1;
    }
  }

  /** A main solution and one accepted alternative. */
  lemma TrailOfTwo(costs: seq<real>, start: seq<int>, nranks: nat, nlpt: nat, delta: real, main: Solution,
                   next: Solution)
    requires IsPartial(costs, start, nranks, nlpt, delta, main) && |main.selected| == 2
    requires IsPartial(costs, start, nranks, 1, delta, next) && next.costMax <= main.costMax
    ensures IsFullTrail(costs, start, nranks, nlpt, 1, delta, [main, next])
  {
    assert Halved(2, 1) == 1;
    assert IsAlternative(costs, start, nranks, delta, [main, next], 1);
  }

  lemma BetweenTrail(x: real, u: real, delta: real)
    requires 0.0 < u && u + u <= x && 0.0 <= delta && delta + u <= x && x.Floor == (x + u).Floor
    ensures IsFullTrail(Between(x, u), [0, 0, 1], 2, 2, 1, delta, [Spread(x), Unchanged(x, u)])
  {
    SpreadIsPartial(x, u, delta);
    UnchangedIsPartial(x, u, delta);
    TrailOfTwo(Between(x, u), [0, 0, 1], 2, 2, delta, Spread(x), Unchanged(x, u));
  }

  /**
   Two ranks, all of them allowed, one alternative: when x and x + u have the same integer part, CPLX drops the main
   solution, whose maximum is x, for the unchanged start, whose maximum is x + u.
   */
  lemma WorseByUnit(x: real, u: real, delta: real) returns (trail: seq<Solution>)
    requires 0.0 < u && u + u <= x && 0.0 <= delta && delta + u <= x && x.Floor == (x + u).Floor
    ensures IsStart(Between(x, u), [0, 0, 1], 2)
    ensures IsFullTrail(Between(x, u), [0, 0, 1], 2, 2, 1, delta, trail)
    ensures MaxLoadAtMost(Between(x, u), trail[0].ranks, 2, x)
    ensures |Last(trail).ranks| == 3 && Load(Between(x, u), Last(trail).ranks, 0) == x + u
  {
    StartOfBetween(x, u);
    BetweenTrail(x, u, delta);
    SpreadLoad(x, u);
    LoadsOfBetween(x, u);
    trail := [Spread(x), Unchanged(x, u)];
  }

  /** Without seeds, costs 0.2, 0.5 and 0.2: a maximum of 0.7 replaces one of 0.5. */
  lemma WorseChoice(costs: seq<real>) returns (trail: seq<Solution>)
    requires costs == [0.2, 0.5, 0.2]
    ensures IsStart(costs, [0, 0, 1], 2) && IsFullTrail(costs, [0, 0, 1], 2, 2, 1, 0.0, trail)
    ensures MaxLoadAtMost(costs, trail[0].ranks, 2, 0.5)
    ensures |Last(trail).ranks| == 3 && Load(costs, Last(trail).ranks, 0) == 0.7
  {
    assert costs == Between(0.5, 0.2);
    trail := WorseByUnit(0.5, 0.2, 0.0);
  }

  /** A run of the policy: its input, the start and the solutions it accepts. */
  datatype PolicyRun = PolicyRun(costs: seq<real>, nranks: nat, nlpt: int, altMax: nat, delta: real, start: seq<int>,
                     trail: seq<Solution>)

  ghost predicate IsRun(run: PolicyRun)
  {
    && 0 < run.nranks <= |run.costs| && run.nlpt <= run.nranks && Nonnegative(run.costs) && 0.0 <= run.delta
    && IsStart(run.costs, run.start, run.nranks)
    && IsFullTrail(run.costs, run.start, run.nranks, run.nlpt, run.altMax, run.delta, run.trail)
  }

  /** A bound on the main solution's loads is one on the chosen solution's. */
  ghost predicate IsNoWorse(run: PolicyRun)
    requires IsRun(run)
  {
    LastSolution(run.costs, run.start, run.nranks, run.nlpt, run.delta, run.trail);
    forall m :: MaxLoadAtMost(run.costs, run.trail[0].ranks, run.nranks, m)
            ==> MaxLoadAtMost(run.costs, Last(run.trail).ranks, run.nranks, m)
  }

  /** On costs in whole units u the choice is never worse than the main solution. */
  ghost predicate IsSafeUnit(u: real)
  {
    forall run :: IsRun(run) && AreMultiples(run.costs, u) ==> IsNoWorse(run)
  }

  /** For every smaller unit and any seed there is a run that ends with a maximum a whole unit above the main one. */
  lemma SmallUnitIsUnsafe(u: real, delta: real) returns (run: PolicyRun, m: real)
    requires 0.0 < u < 1.0 && 0.0 <= delta
    ensures IsRun(run) && run.delta == delta && AreMultiples(run.costs, u)
    ensures MaxLoadAtMost(run.costs, run.trail[0].ranks, run.nranks, m)
    ensures |Last(run.trail).ranks| == |run.costs| && Load(run.costs, Last(run.trail).ranks, 0) == m + u
  {
    var from := FarEnough(u, delta);
    var budget := Enough(1.0 - u);
    var k := SameFloor(from, u, 1.0 - u, budget);
    m := Times(k, u);
    TimesMonotone(from, k, u);
    var trail := WorseByUnit(m, u, delta);
    run := PolicyRun(Between(m, u), 2, 2, 1, delta, [0, 0, 1], trail);
    SmallTimes(u);
    assert u == Times(1, u);
  }

  lemma FarEnough(u: real, delta: real) returns (n: nat)
    requires 0.0 < u && 0.0 <= delta
    ensures u + u <= Times(n, u) && delta + u <= Times(n, u)
  {
    var q := Quotient(delta, u);
    n := q.Floor + 3;
    TimesIsProduct(n, u);
    FarProduct(q, n as real, u, delta);
  }

  lemma Quotient(delta: real, u: real) returns (q: real)
    requires 0.0 < u && 0.0 <= delta
    ensures q * u == delta && 0.0 <= q
  {
    q := delta / u;
  }

  lemma FarProduct(q: real, y: real, u: real, delta: real)
    requires 0.0 < u && 0.0 <= delta == q * u && q + 2.0 <= y
    ensures delta + u + u <= y * u
  {
    ScaledOrder(q + 2.0, y, u);
    TwoMore(q, u);
  }

  lemma TwoMore(q: real, u: real)
    ensures (q + 2.0) * u == q * u + u + u
  {
  }

  lemma ScaledOrder(x: real, y: real, u: real)
    requires 0.0 < u && x <= y
    ensures x * u <= y * u
  {
  }

  /**
   Main result: on costs that are whole multiples of u the choice between solutions is never worse than the main one if
   and only if u is at least 1. Whole costs are safe; for any finer unit there is a failing input.
   */
  lemma UnitIsSafeIff(u: real)
    requires 0.0 < u
    ensures IsSafeUnit(u) <==> 1.0 <= u
  {
    if 1.0 <= u {
      forall run | IsRun(run) && AreMultiples(run.costs, u) ensures IsNoWorse(run) {
        SafeRun(run, u);
      }
    } else {
      var run, m := SmallUnitIsUnsafe(u, 0.0);
      assert !IsNoWorse(run);
    }
  }

  lemma SafeRun(run: PolicyRun, u: real)
    requires IsRun(run) && AreMultiples(run.costs, u) && 1.0 <= u
    ensures IsNoWorse(run)
  {
    LastSolution(run.costs, run.start, run.nranks, run.nlpt, run.delta, run.trail);
    forall m | MaxLoadAtMost(run.costs, run.trail[0].ranks, run.nranks, m)
      ensures MaxLoadAtMost(run.costs, Last(run.trail).ranks, run.nranks, m)
    {
      ChosenNoWorse(run.costs, run.start, run.nranks, run.nlpt, run.delta, run.trail, m, u);
    }
  }
}
