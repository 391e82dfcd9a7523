/**
 The alias method (tools-common/alias_method.cc and .h): tables for sampling from a discrete distribution.
 */
module Alias {
  import opened Sums
  import Contiguous

  // ----- what the tables mean -----

  /** The part of column j, of height 1, that yields i. */
  function ColumnShare(prob: seq<real>, alias: seq<int>, j: int, i: int): real
    requires |prob| == |alias| && 0 <= j < |prob|
  {
    (if j == i then prob[j] else 0.0) + (if alias[j] == i then 1.0 - prob[j] else 0.0)
  }

  function Shares(prob: seq<real>, alias: seq<int>, i: int): (s: seq<real>)
    requires |prob| == |alias|
    ensures |s| == |prob| && forall j :: 0 <= j < |prob| ==> s[j] == ColumnShare(prob, alias, j, i)
  {
    seq(|prob|, j requires 0 <= j < |prob| => ColumnShare(prob, alias, j, i))
  }

  /** The columns' parts that yield i, added up; n times the probability of i. */
  function Mass(prob: seq<real>, alias: seq<int>, i: int): real
    requires |prob| == |alias|
  {
    Sum(Shares(prob, alias, i))
  }

  /** The probability of i. */
  function Share(weights: seq<real>, i: int): real
    requires 0 <= i < |weights| && Sum(weights) > 0.0
  {
    weights[i] / Sum(weights)
  }

  /** Weight i scaled so that the average is 1. */
  function Scaled(weights: seq<real>, i: int): real
    requires 0 <= i < |weights| && Sum(weights) > 0.0
  {
    |weights| as real * Share(weights, i)
  }

  lemma SumUpdate(s: seq<real>, k: nat, x: real)
    requires k < |s|
    ensures Sum(s[k := x]) == Sum(s) - s[k] + x
  {
    SumRemove(s, k);
    SumRemove(s[k := x], k);
    assert s[k := x][..k] + s[k := x][k + 1..] == s[..k] + s[k + 1..];
  }

  /** Rewriting one column changes the mass by what that column contributed. */
  lemma MassUpdate(prob: seq<real>, alias: seq<int>, j: nat, p: real, a: int, i: int)
    requires |prob| == |alias| && j < |prob|
    ensures Mass(prob[j := p], alias[j := a], i)
            == Mass(prob, alias, i) - ColumnShare(prob, alias, j, i)
               + (if j == i then p else 0.0) + (if a == i then 1.0 - p else 0.0)
  {
    var s := Shares(prob, alias, i);
    var x := (if j == i then p else 0.0) + (if a == i then 1.0 - p else 0.0);
    SumUpdate(s, j, x);
    assert Shares(prob[j := p], alias[j := a], i) == s[j := x];
  }

  /** The table step: the under-full column is topped up from the over-full one. Nobody's mass changes. */
  lemma TopUpKeepsMass(prob: seq<real>, alias: seq<int>, u: nat, o: nat, i: int)
    requires |prob| == |alias| && u < |prob| && o < |prob| && u != o && 0 <= i
    requires alias[u] == -1 && alias[o] == -1
    ensures Mass(prob[o := prob[o] + prob[u] - 1.0], alias[u := o], i) == Mass(prob, alias, i)
  {
    MassUpdate(prob, alias, u, prob[u], o, i);
    var alias' := alias[u := o];
    assert prob[u := prob[u]] == prob;
    MassUpdate(prob, alias', o, prob[o] + prob[u] - 1.0, -1, i);
    assert alias'[o := -1] == alias';
  }

  /** Closing a full column on itself changes nothing. */
  lemma CloseKeepsMass(prob: seq<real>, alias: seq<int>, j: nat, i: int)
    requires |prob| == |alias| && j < |prob| && alias[j] == -1 && prob[j] == 1.0 && 0 <= i
    ensures Mass(prob[j := 1.0], alias[j := j], i) == Mass(prob, alias, i)
  {
    MassUpdate(prob, alias, j, 1.0, j, i);
  }

  // ----- the queues -----

  /** The heights of the columns in a queue, added up. */
  function QueueSum(prob: seq<real>, queue: seq<nat>): real
    requires forall k :: 0 <= k < |queue| ==> queue[k] < |prob|
  {
    if |queue| == 0 then 0.0 else prob[queue[0]] + QueueSum(prob, queue[1..])
  }

  lemma {:induction false} QueueSumAppend(prob: seq<real>, queue: seq<nat>, x: nat)
    requires x < |prob| && forall k :: 0 <= k < |queue| ==> queue[k] < |prob|
    ensures QueueSum(prob, queue + [x]) == QueueSum(prob, queue) + prob[x]
  {
    if |queue| > 0 {
      QueueSumAppend(prob, queue[1..], x);
      assert (queue + [x])[1..] == queue[1..] + [x];
    }
  }

  lemma {:induction false} QueueSumUntouched(prob: seq<real>, queue: seq<nat>, j: nat, p: real)
    requires j < |prob| && forall k :: 0 <= k < |queue| ==> queue[k] < |prob| && queue[k] != j
    ensures QueueSum(prob[j := p], queue) == QueueSum(prob, queue)
  {
    if |queue| > 0 {
      QueueSumUntouched(prob, queue[1..], j, p);
    }
  }

  /** Columns that are all full, adding up to their number, are exactly full. */
  lemma {:induction false} FullColumns(prob: seq<real>, queue: seq<nat>)
    requires forall k :: 0 <= k < |queue| ==> queue[k] < |prob| && prob[queue[k]] >= 1.0
    ensures QueueSum(prob, queue) >= |queue| as real
    ensures QueueSum(prob, queue) == |queue| as real ==> forall k :: 0 <= k < |queue| ==> prob[queue[k]] == 1.0
  {
    if |queue| > 0 {
      FullColumns(prob, queue[1..]);
      if QueueSum(prob, queue) == |queue| as real {
        forall k | 0 <= k < |queue| ensures prob[queue[k]] == 1.0 {
          assert k > 0 ==> queue[k] == queue[1..][k - 1];
        }
      }
    }
  }

  /** Columns that are all under-full add up to less than their number. */
  lemma {:induction false} UnderFullColumns(prob: seq<real>, queue: seq<nat>)
    requires forall k :: 0 <= k < |queue| ==> queue[k] < |prob| && prob[queue[k]] < 1.0
    ensures |queue| > 0 ==> QueueSum(prob, queue) < |queue| as real
  {
    if |queue| > 0 {
      UnderFullColumns(prob, queue[1..]);
    }
  }

  /** A column already decided: part of its height, the rest lent to another column. */
  ghost predicate IsDecided(prob: seq<real>, alias: seq<int>, j: nat)
    requires |prob| == |alias| && j < |prob|
  {
    0.0 <= prob[j] <= 1.0 && 0 <= alias[j] < |prob|
  }

  /** The loop invariant: queued columns are undecided, the others decided; mass and total height are right. */
  ghost predicate Balanced(goal: seq<real>, prob: seq<real>, alias: seq<int>, under: seq<nat>, over: seq<nat>)
  {
    && |prob| == |alias| == |goal|
    && (forall k :: 0 <= k < |under| ==> under[k] < |prob| && alias[under[k]] == -1 && 0.0 <= prob[under[k]] < 1.0)
    && (forall k :: 0 <= k < |over| ==> over[k] < |prob| && alias[over[k]] == -1 && 1.0 <= prob[over[k]])
    && Distinct(under + over)
    && (forall j :: 0 <= j < |prob| ==> IsDecided(prob, alias, j) || j in under || j in over)
    && (forall i :: 0 <= i < |prob| ==> Mass(prob, alias, i) == goal[i])
    && QueueSum(prob, under) + QueueSum(prob, over) == (|under| + |over|) as real
  }

  // ----- sampling -----

  /** The heights r2 at which column j yields i: the interval [Low, High). */
  function Low(prob: seq<real>, alias: seq<int>, j: int, i: int): real
    requires |prob| == |alias| && 0 <= j < |prob|
  {
    if i != j && i == alias[j] then prob[j] else 0.0
  }

  function High(prob: seq<real>, alias: seq<int>, j: int, i: int): real
    requires |prob| == |alias| && 0 <= j < |prob|
  {
    if i == alias[j] then 1.0 else if i == j then prob[j] else 0.0
  }

  /** Truncation of a non-negative number below n. */
  function Truncate(x: real, n: nat): (j: int)
    requires 0.0 <= x < n as real
    ensures 0 <= j < n
    ensures j as real <= x < (j + 1) as real
  {
    x.Floor
  }

  lemma ScaleUnit(r: real, n: real)
    requires 0.0 < n && 0.0 <= r < 1.0
    ensures 0.0 <= r * n < n
  {
  }

  /** Sample's column for r1. */
  function Column(n: nat, r1: real): (j: int)
    requires 0 < n && 0.0 <= r1 < 1.0
    ensures 0 <= j < n
    ensures j as real <= r1 * n as real < (j + 1) as real
  {
    ScaleUnit(r1, n as real);
    Truncate(r1 * n as real, n)
  }

  /** AliasMethod::Sample. */
  function Sample(prob: seq<real>, alias: seq<int>, r1: real, r2: real): int
    requires 0 < |prob| == |alias| && 0.0 <= r1 < 1.0
  {
    var j := Column(|prob|, r1);
    if r2 >= prob[j] && alias[j] != -1 then alias[j] else j
  }

  /** The tables after construction: every column is decided and column masses are the goal. */
  ghost predicate IsTable(goal: seq<real>, prob: seq<real>, alias: seq<int>)
  {
    && |prob| == |alias| == |goal|
    && (forall j :: 0 <= j < |prob| ==> IsDecided(prob, alias, j))
    && (forall i :: 0 <= i < |prob| ==> Mass(prob, alias, i) == goal[i])
  }

  /** What the first loop writes into prob_table. */
  function Heights(weights: seq<real>): (h: seq<real>)
    requires Sum(weights) > 0.0
    ensures |h| == |weights| && forall i :: 0 <= i < |h| ==> h[i] == Scaled(weights, i)
  {
    seq(|weights|, i requires 0 <= i < |weights| => Scaled(weights, i))
  }

  ghost predicate Represents(weights: seq<real>, prob: seq<real>, alias: seq<int>)
  {
    Sum(weights) > 0.0 && IsTable(Heights(weights), prob, alias)
  }

  lemma SampleRegion(prob: seq<real>, alias: seq<int>, j: nat, r2: real, i: nat)
    requires |prob| == |alias| && j < |prob| && IsDecided(prob, alias, j) && 0.0 <= r2 < 1.0
    ensures (if r2 >= prob[j] && alias[j] != -1 then alias[j] else j) == i
            <==> Low(prob, alias, j, i) <= r2 < High(prob, alias, j, i)
    ensures High(prob, alias, j, i) - Low(prob, alias, j, i) == ColumnShare(prob, alias, j, i)
  {
  }

  /** The area of a rectangle of the given height in one of n columns. */
  function Area(height: real, n: nat): real
    requires 0 < n
  {
    1.0 / n as real * height
  }

  /** The areas of the rectangles of i, column by column. */
  function Areas(prob: seq<real>, alias: seq<int>, i: int): (s: seq<real>)
    requires 0 < |prob| == |alias|
    ensures |s| == |prob|
    ensures forall j :: 0 <= j < |prob| ==>
              s[j] == Area(High(prob, alias, j, i) - Low(prob, alias, j, i), |prob|)
  {
    seq(|prob|, j requires 0 <= j < |prob| => Area(High(prob, alias, j, i) - Low(prob, alias, j, i), |prob|))
  }

  lemma AreasAreShares(goal: seq<real>, prob: seq<real>, alias: seq<int>, i: nat)
    requires IsTable(goal, prob, alias) && 0 < |prob|
    ensures forall j :: 0 <= j < |prob| ==> Areas(prob, alias, i)[j] == Area(Shares(prob, alias, i)[j], |prob|)
  {
    forall j | 0 <= j < |prob| ensures Areas(prob, alias, i)[j] == Area(Shares(prob, alias, i)[j], |prob|) {
      SampleRegion(prob, alias, j, 0.0, i);
    }
  }

  lemma {:induction false} SumAreas(s: seq<real>, t: seq<real>, n: nat)
    requires 0 < n && |s| == |t| && forall k :: 0 <= k < |s| ==> t[k] == Area(s[k], n)
    ensures Sum(t) == Area(Sum(s), n)
  {
    if |s| > 0 {
      var k := |s| - 1;
      SumAreas(s[..k], t[..k], n);
      Distribution(1.0 / n as real, Sum(s[..k]), s[k]);
    }
  }

  lemma AreasAddUp(weights: seq<real>, prob: seq<real>, alias: seq<int>, i: nat)
    requires Represents(weights, prob, alias) && i < |weights|
    ensures Sum(Areas(prob, alias, i)) == Share(weights, i)
  {
    AreasAreShares(Heights(weights), prob, alias, i);
    SumAreas(Shares(prob, alias, i), Areas(prob, alias, i), |prob|);
    MassIsShare(weights, prob, alias, i, |prob|, Share(weights, i));
    AreaOfShare(Mass(prob, alias, i), |prob|, Share(weights, i));
  }

  lemma MassIsShare(weights: seq<real>, prob: seq<real>, alias: seq<int>, i: nat, n: nat, share: real)
    requires Represents(weights, prob, alias) && i < |weights| && n == |prob| && share == Share(weights, i)
    ensures Mass(prob, alias, i) == n as real * share
  {
    assert Heights(weights)[i] == Scaled(weights, i);
  }

  lemma AreaOfShare(mass: real, n: nat, share: real)
    requires 0 < n && mass == n as real * share
    ensures Area(mass, n) == share
  {
    WidthTimes(n as real, share);
  }

  /**
   Main result. Sample yields i exactly when r2 is in the heights [Low, High) of the column below r1, and the areas of
   these rectangles over all columns add up to i's share of the weights.
   */
  lemma SampleIsExact(weights: seq<real>, prob: seq<real>, alias: seq<int>, r1: real, r2: real, i: nat)
    requires Represents(weights, prob, alias) && i < |weights|
    requires 0.0 <= r1 < 1.0 && 0.0 <= r2 < 1.0
    ensures var j := Column(|prob|, r1);
            Sample(prob, alias, r1, r2) == i <==> Low(prob, alias, j, i) <= r2 < High(prob, alias, j, i)
    ensures Sum(Areas(prob, alias, i)) == Share(weights, i)
  {
    var goal := Heights(weights);
    SampleInColumn(goal, prob, alias, r1, r2, i);
    AreasAddUp(weights, prob, alias, i);
  }

  lemma WidthTimes(n: real, share: real)
    requires 0.0 < n
    ensures 1.0 / n * (n * share) == share
  {
    QuotientTimes(1.0, n);
    assert 1.0 / n * (n * share) == (1.0 / n * n) * share;
  }

  lemma SampleInColumn(goal: seq<real>, prob: seq<real>, alias: seq<int>, r1: real, r2: real, i: nat)
    requires IsTable(goal, prob, alias) && i < |goal| && 0.0 <= r1 < 1.0 && 0.0 <= r2 < 1.0
    ensures var j := Column(|prob|, r1);
            Sample(prob, alias, r1, r2) == i <==> Low(prob, alias, j, i) <= r2 < High(prob, alias, j, i)
    ensures forall j :: 0 <= j < |prob| ==>
              High(prob, alias, j, i) - Low(prob, alias, j, i) == ColumnShare(prob, alias, j, i)
  {
    SampleRegion(prob, alias, Column(|prob|, r1), r2, i);
    forall k | 0 <= k < |prob|
      ensures High(prob, alias, k, i) - Low(prob, alias, k, i) == ColumnShare(prob, alias, k, i) {
      SampleRegion(prob, alias, k, r2, i);
    }
  }

  // ----- the loops of the constructor -----

  lemma {:induction false} SumScaled(s: seq<real>, t: seq<real>, c: real)
    requires |s| == |t| && forall k :: 0 <= k < |s| ==> t[k] == c * s[k]
    ensures Sum(t) == c * Sum(s)
  {
    if |s| > 0 {
      var n := |s| - 1;
      SumScaled(s[..n], t[..n], c);
      Distribution(c, Sum(s[..n]), s[n]);
    }
  }

  lemma Distribution(c: real, x: real, y: real)
    ensures c * (x + y) == c * x + c * y
  {
  }

  lemma Reassociate(n: real, w: real, total: real)
    requires 0.0 < total
    ensures n * w / total == n * (w / total) == n / total * w
  {
  }

  lemma QuotientTimes(n: real, total: real)
    requires 0.0 < total
    ensures n / total * total == n
  {
  }

  lemma HeightByFactor(weights: seq<real>, i: nat, factor: real)
    requires Sum(weights) > 0.0 && i < |weights| && factor == |weights| as real / Sum(weights)
    ensures Heights(weights)[i] == factor * weights[i]
  {
    Reassociate(|weights| as real, weights[i], Sum(weights));
  }

  lemma HeightsFactor(weights: seq<real>) returns (factor: real)
    requires Sum(weights) > 0.0
    ensures factor * Sum(weights) == |weights| as real
    ensures forall i :: 0 <= i < |weights| ==> Heights(weights)[i] == factor * weights[i]
  {
    factor := |weights| as real / Sum(weights);
    forall i | 0 <= i < |weights| ensures Heights(weights)[i] == factor * weights[i] {
      HeightByFactor(weights, i, factor);
    }
    QuotientTimes(|weights| as real, Sum(weights));
  }

  /** The average height is 1. */
  lemma HeightsSum(weights: seq<real>)
    requires Sum(weights) > 0.0
    ensures Sum(Heights(weights)) == |weights| as real
  {
    var factor := HeightsFactor(weights);
    SumScaled(weights, Heights(weights), factor);
  }

  lemma NonnegativeProduct(n: real, w: real, total: real)
    requires 0.0 <= n && 0.0 <= w && 0.0 < total
    ensures 0.0 <= n * (w / total)
  {
    var x := w / total;
    assert x >= 0.0;
    assert n * x >= 0.0;
  }

  method ScaleWeight(weights: seq<real>, total: real, i: nat) returns (x: real)
    requires total == Sum(weights) > 0.0 && i < |weights| && 0.0 <= weights[i]
    ensures x == Heights(weights)[i] >= 0.0
  {
    var n := |weights| as real;
    x := n * weights[i] / total;
    Reassociate(n, weights[i], total);
    NonnegativeProduct(n, weights[i], total);
  }

  lemma {:induction false} SumZeros(s: seq<real>)
    requires forall k :: 0 <= k < |s| ==> s[k] == 0.0
    ensures Sum(s) == 0.0
  {
    if |s| > 0 {
      SumZeros(s[..|s| - 1]);
    }
  }

  lemma MassBeforePairing(prob: seq<real>, alias: seq<int>, i: nat)
    requires |prob| == |alias| && i < |prob| && forall j :: 0 <= j < |alias| ==> alias[j] == -1
    ensures Mass(prob, alias, i) == prob[i]
  {
    var s := Shares(prob, alias, i);
    SumUpdate(s, i, 0.0);
    SumZeros(s[i := 0.0]);
  }

  /** The queues hold the first n columns, the under-full ones apart from the others. */
  ghost predicate IsSplit(h: seq<real>, under: seq<nat>, over: seq<nat>, n: nat)
    requires n <= |h|
  {
    && |under| + |over| == n
    && (forall k :: 0 <= k < |under| ==> under[k] < n && 0.0 <= h[under[k]] < 1.0)
    && (forall k :: 0 <= k < |over| ==> over[k] < n && 1.0 <= h[over[k]])
    && Distinct(under + over)
    && (forall j :: 0 <= j < n ==> j in under || j in over)
    && QueueSum(h, under) + QueueSum(h, over) == Sum(h[..n])
  }

  lemma SplitNext(h: seq<real>, under: seq<nat>, over: seq<nat>, n: nat)
    requires n < |h| && IsSplit(h, under, over, n) && 0.0 <= h[n]
    ensures h[n] < 1.0 ==> IsSplit(h, under + [n], over, n + 1)
    ensures h[n] >= 1.0 ==> IsSplit(h, under, over + [n], n + 1)
  {
    assert h[..n + 1] == h[..n] + [h[n]];
    SumAppend(h[..n], [h[n]]);
    SumSingleton(h[n]);
    var q := under + over;
    assert forall k :: 0 <= k < |q| ==> q[k] < n;
    if h[n] < 1.0 {
      QueueSumAppend(h, under, n);
      DistinctInsert(under, over, n);
      assert forall j :: 0 <= j < n && j in under ==> j in under + [n];
      assert (under + [n])[|under|] == n;
    } else {
      QueueSumAppend(h, over, n);
      assert under + (over + [n]) == q + [n];
      assert forall j :: 0 <= j < n && j in over ==> j in over + [n];
      assert (over + [n])[|over|] == n;
    }
  }

  lemma DistinctInsert(a: seq<nat>, b: seq<nat>, x: nat)
    requires Distinct(a + b) && x !in a + b
    ensures Distinct(a + [x] + b)
  {
    var q, r := a + b, a + [x] + b;
    forall i, j | 0 <= i < j < |r| ensures r[i] != r[j] {
      assert i != |a| ==> r[i] == q[if i < |a| then i else i - 1];
      assert j != |a| ==> r[j] == q[if j < |a| then j else j - 1];
    }
  }

  /** Scales the weights and sorts the columns into the two queues. */
  method Distribute(weights: seq<real>, total: real, prob: array<real>, alias: array<int>)
    returns (under: seq<nat>, over: seq<nat>)
    requires total == Sum(weights) > 0.0 && forall i :: 0 <= i < |weights| ==> 0.0 <= weights[i]
    requires prob.Length == alias.Length == |weights|
    modifies prob, alias
    ensures prob[..] == Heights(weights)
    ensures forall j :: 0 <= j < alias.Length ==> alias[j] == -1
    ensures IsSplit(Heights(weights), under, over, |weights|)
  {
    ghost var h := Heights(weights);
    under, over := [], [];
    for i := 0 to prob.Length
      invariant forall j :: 0 <= j < i ==> prob[j] == h[j] && alias[j] == -1
      invariant IsSplit(h, under, over, i)
    {
      alias[i] := -1;
      prob[i] := ScaleWeight(weights, total, i);
      under, over := Push(h, under, over, i, prob[i]);
    }
  }

  method Push(ghost h: seq<real>, under: seq<nat>, over: seq<nat>, i: nat, height: real)
    returns (under': seq<nat>, over': seq<nat>)
    requires i < |h| && IsSplit(h, under, over, i) && 0.0 <= height == h[i]
    ensures IsSplit(h, under', over', i + 1)
  {
    SplitNext(h, under, over, i);
    if height < 1.0 {
      under', over' := under + [i], over;
    } else {
      under', over' := under, over + [i];
    }
  }

  lemma MassesBeforePairing(h: seq<real>, alias: seq<int>)
    requires |alias| == |h| && forall j :: 0 <= j < |alias| ==> alias[j] == -1
    ensures forall i :: 0 <= i < |h| ==> Mass(h, alias, i) == h[i]
  {
    forall i | 0 <= i < |h| ensures Mass(h, alias, i) == h[i] {
      MassBeforePairing(h, alias, i);
    }
  }

  lemma SplitLevel(h: seq<real>, under: seq<nat>, over: seq<nat>, n: nat)
    requires n == |h| && Sum(h) == n as real && IsSplit(h, under, over, n)
    ensures QueueSum(h, under) + QueueSum(h, over) == (|under| + |over|) as real
  {
    assert h[..n] == h;
  }

  lemma SplitUndecided(h: seq<real>, alias: seq<int>, under: seq<nat>, over: seq<nat>, n: nat)
    requires n == |h| && |alias| == n && IsSplit(h, under, over, n)
    requires forall j :: 0 <= j < |alias| ==> alias[j] == -1
    ensures forall k :: 0 <= k < |under| ==> under[k] < |h| && alias[under[k]] == -1 && 0.0 <= h[under[k]] < 1.0
    ensures forall k :: 0 <= k < |over| ==> over[k] < |h| && alias[over[k]] == -1 && 1.0 <= h[over[k]]
    ensures forall j :: 0 <= j < |h| ==> IsDecided(h, alias, j) || j in under || j in over
    ensures Distinct(under + over)
  {
  }

  lemma SplitIsBalanced(h: seq<real>, alias: seq<int>, under: seq<nat>, over: seq<nat>, n: nat)
    requires n == |h| && |alias| == n && Sum(h) == n as real && IsSplit(h, under, over, n)
    requires forall j :: 0 <= j < |alias| ==> alias[j] == -1
    ensures Balanced(h, h, alias, under, over)
  {
    MassesBeforePairing(h, alias);
    SplitLevel(h, under, over, n);
    SplitUndecided(h, alias, under, over, n);
  }

  /** Both front columns leave their queues; the over-full one re-enters one of them. */
  lemma PairStep(goal: seq<real>, prob: seq<real>, alias: seq<int>, under: seq<nat>, over: seq<nat>,
                 prob': seq<real>, alias': seq<int>)
    requires Balanced(goal, prob, alias, under, over) && |under| > 0 && |over| > 0
    requires alias' == alias[under[0] := over[0]]
    requires prob' == prob[over[0] := prob[over[0]] + prob[under[0]] - 1.0]
    ensures under[0] != over[0] && 0.0 <= prob'[over[0]]
    ensures prob'[over[0]] < 1.0 ==> Balanced(goal, prob', alias', under[1..] + [over[0]], over[1..])
    ensures prob'[over[0]] >= 1.0 ==> Balanced(goal, prob', alias', under[1..], over[1..] + [over[0]])
  {
    var u, o, us, os := under[0], over[0], under[1..], over[1..];
    QueuesApart(under, over);
    forall i | 0 <= i < |prob| ensures Mass(prob', alias', i) == goal[i] {
      TopUpKeepsMass(prob, alias, u, o, i);
    }
    QueueSumUntouched(prob, us, o, prob'[o]);
    QueueSumUntouched(prob, os, o, prob'[o]);
    if prob'[o] < 1.0 {
      QueueSumAppend(prob', us, o);
      DistinctInsert(us, os, o);
      StillCovered(prob, alias, under, over, prob', alias', us + [o], os);
    } else {
      QueueSumAppend(prob', os, o);
      assert us + (os + [o]) == us + os + [o];
      StillCovered(prob, alias, under, over, prob', alias', us, os + [o]);
    }
  }

  /** The two front columns are different from each other and from the columns behind them. */
  lemma QueuesApart(under: seq<nat>, over: seq<nat>)
    requires |under| > 0 && |over| > 0 && Distinct(under + over)
    ensures under[0] != over[0]
    ensures forall k :: 0 <= k < |under[1..]| ==> under[1..][k] != under[0] && under[1..][k] != over[0]
    ensures forall k :: 0 <= k < |over[1..]| ==> over[1..][k] != under[0] && over[1..][k] != over[0]
    ensures Distinct(under[1..] + over[1..]) && over[0] !in under[1..] + over[1..]
  {
    var q, r, n := under + over, under[1..] + over[1..], |under|;
    assert q[0] == under[0] && q[n] == over[0];
    forall k | 0 <= k < |r|
      ensures r[k] == q[if k < n - 1 then k + 1 else k + 2] && r[k] != under[0] && r[k] != over[0]
    {
    }
    forall k | 0 <= k < n - 1 ensures under[1..][k] != under[0] && under[1..][k] != over[0] {
      assert r[k] == under[1..][k];
    }
    forall k | 0 <= k < |over| - 1 ensures over[1..][k] != under[0] && over[1..][k] != over[0] {
      assert r[n - 1 + k] == over[1..][k];
    }
  }

  /** After a pairing every column is decided or queued again. */
  lemma StillCovered(prob: seq<real>, alias: seq<int>, under: seq<nat>, over: seq<nat>,
                     prob': seq<real>, alias': seq<int>, under': seq<nat>, over': seq<nat>)
    requires |prob| == |alias| == |prob'| == |alias'| && |under| > 0 && |over| > 0
    requires under[0] < |prob| && over[0] < |prob| && under[0] != over[0] && 0.0 <= prob[under[0]] < 1.0
    requires alias' == alias[under[0] := over[0]] && prob' == prob[over[0] := prob'[over[0]]]
    requires forall j :: 0 <= j < |prob| ==> IsDecided(prob, alias, j) || j in under || j in over
    requires (under' == under[1..] + [over[0]] && over' == over[1..]) || (under' == under[1..]
               && over' == over[1..] + [over[0]])
    ensures forall j :: 0 <= j < |prob| ==> IsDecided(prob', alias', j) || j in under' || j in over'
  {
    assert under == [under[0]] + under[1..] && over == [over[0]] + over[1..];
    forall j | 0 <= j < |prob| ensures IsDecided(prob', alias', j) || j in under' || j in over' {
      if j == under[0] {
        assert prob'[j] == prob[j] && alias'[j] == over[0];
      } else if j == over[0] {
        assert j in [over[0]];
      } else {
        assert j in under ==> j in under[1..];
        assert j in over ==> j in over[1..];
      }
    }
  }

  method PairUp(ghost goal: seq<real>, prob: array<real>, alias: array<int>, under0: seq<nat>, over0: seq<nat>)
    returns (under: seq<nat>, over: seq<nat>)
    requires Balanced(goal, prob[..], alias[..], under0, over0)
    modifies prob, alias
    ensures Balanced(goal, prob[..], alias[..], under, over)
    ensures under == [] || over == []
  {
    under, over := under0, over0;
    while under != [] && over != []
      invariant Balanced(goal, prob[..], alias[..], under, over)
      decreases |under| + |over|
    {
      under, over := PairFront(goal, prob, alias, under, over);
    }
  }

  method PairFront(ghost goal: seq<real>, prob: array<real>, alias: array<int>, under: seq<nat>, over: seq<nat>)
    returns (under': seq<nat>, over': seq<nat>)
    requires Balanced(goal, prob[..], alias[..], under, over) && |under| > 0 && |over| > 0
    modifies prob, alias
    ensures Balanced(goal, prob[..], alias[..], under', over')
    ensures |under'| + |over'| == |under| + |over| - 1
  {
    ghost var p, a := prob[..], alias[..];
    var u, o := under[0], over[0];
    under', over' := under[1..], over[1..];
    alias[u] := o;
    prob[o] := prob[o] + prob[u] - 1.0;
    assert alias[..] == a[u := o] && prob[..] == p[o := p[o] + p[u] - 1.0];
    PairStep(goal, p, a, under, over, prob[..], alias[..]);
    if prob[o] < 1.0 {
      under' := under' + [o];
    } else {
      over' := over' + [o];
    }
  }

  /** When one queue is empty so is the under-full one, and every queued column is exactly full. */
  lemma LeftoversAreFull(goal: seq<real>, prob: seq<real>, alias: seq<int>, under: seq<nat>, over: seq<nat>)
    requires Balanced(goal, prob, alias, under, over) && (under == [] || over == [])
    ensures under == []
    ensures forall k :: 0 <= k < |over| ==> prob[over[k]] == 1.0
  {
    FullColumns(prob, over);
    UnderFullColumns(prob, under);
  }

  /** Some queue's columns are still to be closed; closing them will complete the tables. */
  ghost predicate AllButFull(goal: seq<real>, prob: seq<real>, alias: seq<int>, queue: seq<nat>)
  {
    && |prob| == |alias| == |goal|
    && (forall k :: 0 <= k < |queue| ==> queue[k] < |prob| && alias[queue[k]] == -1 && prob[queue[k]] == 1.0)
    && Distinct(queue)
    && (forall j :: 0 <= j < |prob| ==> IsDecided(prob, alias, j) || j in queue)
    && (forall i :: 0 <= i < |prob| ==> Mass(prob, alias, i) == goal[i])
  }

  lemma CloseFront(goal: seq<real>, prob: seq<real>, alias: seq<int>, queue: seq<nat>)
    requires AllButFull(goal, prob, alias, queue) && |queue| > 0
    ensures AllButFull(goal, prob[queue[0] := 1.0], alias[queue[0] := queue[0]], queue[1..])
  {
    var j := queue[0];
    var prob', alias' := prob[j := 1.0], alias[j := j];
    assert prob' == prob;
    forall i | 0 <= i < |prob| ensures Mass(prob', alias', i) == goal[i] {
      CloseKeepsMass(prob, alias, j, i);
    }
    assert queue == [j] + queue[1..];
    forall i | 0 <= i < |prob| ensures IsDecided(prob', alias', i) || i in queue[1..] {
      assert i != j && i in queue ==> i in queue[1..];
      assert i != j ==> prob'[i] == prob[i] && alias'[i] == alias[i];
    }
  }

  /** The last two loops: what is still queued keeps all of its column. */
  method Drain(ghost goal: seq<real>, prob: array<real>, alias: array<int>, queue0: seq<nat>)
    requires AllButFull(goal, prob[..], alias[..], queue0)
    modifies prob, alias
    ensures IsTable(goal, prob[..], alias[..])
  {
    var queue := queue0;
    while queue != []
      invariant AllButFull(goal, prob[..], alias[..], queue)
      decreases |queue|
    {
      ghost var p, a := prob[..], alias[..];
      var j := queue[0];
      prob[j] := 1.0;
      alias[j] := j;
      assert prob[..] == p[j := 1.0] && alias[..] == a[j := j];
      CloseFront(goal, p, a, queue);
      queue := queue[1..];
    }
  }

  // ----- the constructor -----

  /** The first loop leaves columns and queues ready for pairing. */
  method StartTables(weights: seq<real>, prob: array<real>, alias: array<int>)
    returns (under: seq<nat>, over: seq<nat>)
    requires Sum(weights) > 0.0 && forall i :: 0 <= i < |weights| ==> 0.0 <= weights[i]
    requires prob.Length == alias.Length == |weights|
    modifies prob, alias
    ensures Balanced(Heights(weights), prob[..], alias[..], under, over)
  {
    var total := Contiguous.Accumulate(weights);
    under, over := Distribute(weights, total, prob, alias);
    HeightsSum(weights);
    SplitIsBalanced(Heights(weights), alias[..], under, over, |weights|);
  }

  /** The last two loops. */
  method CloseColumns(ghost goal: seq<real>, prob: array<real>, alias: array<int>, under: seq<nat>, over: seq<nat>)
    requires Balanced(goal, prob[..], alias[..], under, over) && (under == [] || over == [])
    modifies prob, alias
    ensures IsTable(goal, prob[..], alias[..])
  {
    FullIsLeft(goal, prob[..], alias[..], under, over);
    Drain(goal, prob, alias, over);
    Drain(goal, prob, alias, under);
  }

  /** The columns still queued are exactly the full ones. */
  lemma FullIsLeft(goal: seq<real>, prob: seq<real>, alias: seq<int>, under: seq<nat>, over: seq<nat>)
    requires Balanced(goal, prob, alias, under, over) && (under == [] || over == [])
    ensures under == [] && AllButFull(goal, prob, alias, over)
  {
    LeftoversAreFull(goal, prob, alias, under, over);
    assert under + over == over;
  }

  /** Everything the constructor does once the tables are allocated. */
  method FillTables(weights: seq<real>, prob: array<real>, alias: array<int>)
    requires Sum(weights) > 0.0 && forall i :: 0 <= i < |weights| ==> 0.0 <= weights[i]
    requires prob.Length == alias.Length == |weights|
    modifies prob, alias
    ensures Represents(weights, prob[..], alias[..])
  {
    ghost var goal := Heights(weights);
    var under, over := StartTables(weights, prob, alias);
    under, over := PairUp(goal, prob, alias, under, over);
    CloseColumns(goal, prob, alias, under, over);
  }

  class AliasMethod {
    var probTable: array<real>
    var aliasTable: array<int>

    ghost predicate Valid(weights: seq<real>)
      reads this, probTable, aliasTable
    {
      Represents(weights, probTable[..], aliasTable[..])
    }

    /** Weights need not be normalized, but must not all be zero. */
    constructor (weights: seq<real>)
      requires Sum(weights) > 0.0 && forall i :: 0 <= i < |weights| ==> 0.0 <= weights[i]
      ensures Valid(weights) && fresh(probTable) && fresh(aliasTable)
    {
      var n := |weights|;
      probTable := new real[n](_ => 0.0);
      aliasTable := new int[n](_ => -1);
      new;
      FillTables(weights, probTable, aliasTable);
    }

    /**
     Sample on the object's tables: column j is the one below r1, and r2 lies in the heights of column j that yield i.
     */
    method Draw(ghost weights: seq<real>, r1: real, r2: real) returns (i: int)
      requires Valid(weights) && 0.0 <= r1 < 1.0 && 0.0 <= r2 < 1.0
      ensures 0 < probTable.Length == aliasTable.Length == |weights| && 0 <= i < |weights|
      ensures i == Sample(probTable[..], aliasTable[..], r1, r2)
      ensures var j := Column(|weights|, r1);
              Low(probTable[..], aliasTable[..], j, i) <= r2 < High(probTable[..], aliasTable[..], j, i)
    {
      NotEmpty(weights);
      var j := Column(probTable.Length, r1);
      assert IsDecided(probTable[..], aliasTable[..], j);
      if r2 >= probTable[j] && aliasTable[j] != -1 {
        i := aliasTable[j];
      } else {
        i := j;
      }
      SampleRegion(probTable[..], aliasTable[..], j, r2, i);
    }
  }

  lemma NotEmpty(weights: seq<real>)
    requires Sum(weights) > 0.0
    ensures |weights| > 0
  {
  }
}
