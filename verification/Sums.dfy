/** Sums of real sequences and reorderings of sequences. */
module Sums {

  /** The sum of a sequence, as std::accumulate computes it from left to right. */
  function Sum(s: seq<real>): real
  {
    if |s| == 0 then 0.0 else Sum(s[..|s| - 1]) + s[|s| - 1]
  }

  lemma {:induction false} SumAppend(a: seq<real>, b: seq<real>)
    ensures Sum(a + b) == Sum(a) + Sum(b)
  {
    if b == [] {
      assert a + b == a;
    } else {
      SumAppend(a, b[..|b| - 1]);
      assert (a + b)[..|a + b| - 1] == a + b[..|b| - 1];
    }
  }

  lemma SumSplit(s: seq<real>, k: nat)
    requires k <= |s|
    ensures Sum(s) == Sum(s[..k]) + Sum(s[k..])
  {
    SumAppend(s[..k], s[k..]);
    assert s[..k] + s[k..] == s;
  }

  lemma SumSingleton(x: real)
    ensures Sum([x]) == x
  {
    assert [x][..0] == [];
  }

  lemma {:induction false} SumBound(s: seq<real>, lo: real)
    requires forall k :: 0 <= k < |s| ==> lo <= s[k]
    ensures |s| as real * lo <= Sum(s)
  {
    if |s| > 0 {
      SumBound(s[..|s| - 1], lo);
    }
  }

  lemma SumNonnegative(s: seq<real>)
    requires forall k :: 0 <= k < |s| ==> 0.0 <= s[k]
    ensures 0.0 <= Sum(s)
  {
    SumBound(s, 0.0);
  }

  /** The sum over a range, and how it splits. */
  function RangeSum(s: seq<real>, a: nat, b: nat): real
    requires a <= b <= |s|
  {
    Sum(s[a..b])
  }

  lemma RangeSplit(s: seq<real>, a: nat, b: nat, c: nat)
    requires a <= b <= c <= |s|
    ensures RangeSum(s, a, c) == RangeSum(s, a, b) + RangeSum(s, b, c)
  {
    SumAppend(s[a..b], s[b..c]);
    assert s[a..b] + s[b..c] == s[a..c];
  }

  lemma RangeFront(costs: seq<real>, b: nat, end: nat)
    requires b < end <= |costs|
    ensures RangeSum(costs, b, end) == costs[b] + RangeSum(costs, b + 1, end)
  {
    RangeSplit(costs, b, b + 1, end);
    assert costs[b..b + 1] == [costs[b]];
    SumSingleton(costs[b]);
  }

  /** All prefix sums, the empty one included. */
  function Prefixes(s: seq<real>): (p: seq<real>)
    ensures |p| == |s| + 1
    ensures forall k :: 0 <= k <= |s| ==> p[k] == Sum(s[..k])
  {
    seq(|s| + 1, k requires 0 <= k <= |s| => Sum(s[..k]))
  }

  lemma PrefixDifference(s: seq<real>, a: nat, b: nat)
    requires a <= b <= |s|
    ensures Prefixes(s)[b] - Prefixes(s)[a] == RangeSum(s, a, b)
  {
    RangeSplit(s, 0, a, b);
  }

  lemma PrefixesAscend(s: seq<real>, a: nat, b: nat)
    requires a <= b <= |s|
    requires forall k :: 0 <= k < |s| ==> 0.0 <= s[k]
    ensures Prefixes(s)[a] <= Prefixes(s)[b]
  {
    PrefixDifference(s, a, b);
    SumNonnegative(s[a..b]);
  }

  lemma SumAround(a: seq<real>, x: real, b: seq<real>)
    ensures Sum(a + [x] + b) == Sum(a + b) + x
  {
    SumAppend(a + [x], b);
    SumAppend(a, [x]);
    SumAppend(a, b);
    SumSingleton(x);
  }

  lemma SumRemove(s: seq<real>, k: nat)
    requires k < |s|
    ensures Sum(s) == Sum(s[..k] + s[k + 1..]) + s[k]
  {
    SplitAround(s, k);
    SumAround(s[..k], s[k], s[k + 1..]);
  }

  lemma SplitAround<T>(s: seq<T>, k: nat)
    requires k < |s|
    ensures s[..k] + [s[k]] + s[k + 1..] == s
  {
  }

  ghost predicate Distinct<T>(s: seq<T>)
  {
    forall i, j :: 0 <= i < j < |s| ==> s[i] != s[j]
  }

  /** order lists every index below n exactly once. */
  ghost predicate IsPermutation(order: seq<nat>, n: nat)
  {
    && |order| == n
    && (forall k :: 0 <= k < n ==> order[k] < n)
    && Distinct(order)
  }

  function Permute<T>(s: seq<T>, order: seq<nat>): (r: seq<T>)
    requires forall k :: 0 <= k < |order| ==> order[k] < |s|
    ensures |r| == |order|
    ensures forall k :: 0 <= k < |order| ==> r[k] == s[order[k]]
  {
    seq(|order|, k requires 0 <= k < |order| => s[order[k]])
  }

  /** The indices below n as a set. */
  function Interval(n: nat): (s: set<int>)
    ensures forall x :: x in s <==> 0 <= x < n
    ensures |s| == n
  {
    if n == 0 then {} else Interval(n - 1) + {n - 1}
  }

  lemma {:induction false} DistinctSeqSize<T>(s: seq<T>)
    requires Distinct(s)
    ensures |set x | x in s| == |s|
  {
    var elems := set x | x in s;
    if |s| == 0 {
      assert elems == {};
    } else {
      var t := s[..|s| - 1];
      var last := s[|s| - 1];
      DistinctSeqSize(t);
      assert last !in t;
      assert elems == (set x | x in t) + {last};
    }
  }

  lemma SubsetOfSameSize<T>(a: set<T>, b: set<T>)
    requires a <= b && |a| == |b|
    ensures a == b
  {
    assert a * b == a;
    assert |b - a| == 0;
    assert b == a + (b - a);
  }

  /** A permutation reaches every index: n distinct values below n leave none out. */
  lemma PermutationIsOnto(order: seq<nat>, n: nat)
    requires IsPermutation(order, n)
    ensures forall x :: 0 <= x < n ==> x in order
  {
    var s: seq<int> := order;
    var elems := set x | x in s;
    DistinctSeqSize(s);
    assert elems <= Interval(n);
    SubsetOfSameSize(elems, Interval(n));
    forall x | 0 <= x < n ensures x in order {
      assert x in Interval(n);
    }
  }

  lemma RemoveFromPermutation(order: seq<nat>, n: nat, k: nat)
    requires IsPermutation(order, n) && k < n && order[k] == n - 1
    ensures IsPermutation(order[..k] + order[k + 1..], n - 1)
  {
    var rest := order[..k] + order[k + 1..];
    forall i | 0 <= i < n - 1 ensures rest[i] < n - 1 {
      var i' := if i < k then i else i + 1;
      assert rest[i] == order[i'];
    }
    forall i, j | 0 <= i < j < n - 1 ensures rest[i] != rest[j] {
      var i' := if i < k then i else i + 1;
      var j' := if j < k then j else j + 1;
      assert rest[i] == order[i'] && rest[j] == order[j'];
    }
  }

  /** Where the last index is listed; without it the order is one of the indices before. */
  lemma LastIndex(order: seq<nat>, n: nat) returns (k: nat)
    requires IsPermutation(order, n) && 0 < n
    ensures k < n && order[k] == n - 1 && IsPermutation(order[..k] + order[k + 1..], n - 1)
  {
    PermutationIsOnto(order, n);
    assert n - 1 in order;
    k :| 0 <= k < n && order[k] == n - 1;
    RemoveFromPermutation(order, n, k);
  }

  /** Summing in another order gives the same total. */
  lemma {:induction false} SumPermutation(s: seq<real>, order: seq<nat>)
    requires IsPermutation(order, |s|)
    ensures Sum(Permute(s, order)) == Sum(s)
  {
    var n := |s|;
    if n > 0 {
      var k := LastIndex(order, n);
      SumPermutation(s[..n - 1], order[..k] + order[k + 1..]);
      PermuteWithoutLast(s, order, k);
      SumRemove(Permute(s, order), k);
    } else {
      assert Permute(s, order) == s;
    }
  }

  lemma PermuteWithoutLast(s: seq<real>, order: seq<nat>, k: nat)
    requires IsPermutation(order, |s|) && k < |s| && order[k] == |s| - 1
    requires IsPermutation(order[..k] + order[k + 1..], |s| - 1)
    ensures Permute(s[..|s| - 1], order[..k] + order[k + 1..]) == Permute(s, order)[..k] + Permute(s, order)[k + 1..]
  {
    var rest := order[..k] + order[k + 1..];
    var left := Permute(s[..|s| - 1], rest);
    var right := Permute(s, order)[..k] + Permute(s, order)[k + 1..];
    forall i | 0 <= i < |left| ensures left[i] == right[i] {
      assert rest[i] == order[if i < k then i else i + 1];
    }
  }

  /** x added up n times. */
  function Times(n: nat, x: real): real
  {
    if n == 0 then 0.0 else Times(n - 1, x) + x
  }

  lemma {:induction false} TimesMonotone(k: nat, n: nat, x: real)
    requires k <= n && 0.0 <= x
    ensures Times(k, x) <= Times(n, x)
  {
    if k < n {
      TimesMonotone(k, n - 1, x);
    }
  }

  lemma SmallTimes(x: real)
    ensures Times(0, x) == 0.0 && Times(1, x) == x && Times(2, x) == x + x && Times(3, x) == x + x + x
  {
    assert Times(1, x) == Times(0, x) + x;
    assert Times(2, x) == Times(1, x) + x;
  }

  lemma {:induction false} TimesIsProduct(n: nat, x: real)
    ensures Times(n, x) == n as real * x
  {
    if n > 0 {
      TimesIsProduct(n - 1, x);
      assert n as real * x == ((n - 1) as real + 1.0) * x == (n - 1) as real * x + x;
    }
  }

  /** Times preserves the order of its second argument. */
  lemma {:induction false} TimesOrder(n: nat, x: real, y: real)
    requires x <= y
    ensures Times(n, x) <= Times(n, y)
    ensures n > 0 && x < y ==> Times(n, x) < Times(n, y)
  {
    if n > 0 {
      TimesOrder(n - 1, x, y);
    }
  }

  lemma {:induction false} SumBetween(s: seq<real>, lo: real, hi: real)
    requires forall k :: 0 <= k < |s| ==> lo <= s[k] <= hi
    ensures Times(|s|, lo) <= Sum(s) <= Times(|s|, hi)
  {
    if |s| > 0 {
      SumBetween(s[..|s| - 1], lo, hi);
    }
  }

  lemma {:induction false} TimesSplit(m: nat, n: nat, x: real)
    ensures Times(m + n, x) == Times(m, x) + Times(n, x)
  {
    if n > 0 {
      TimesSplit(m, n - 1, x);
      assert Times(m + n, x) == Times(m + n - 1, x) + x;
    }
  }

  /** Dividing is undoing Times. */
  lemma TimesOfQuotient(n: nat, x: real)
    requires n > 0
    ensures Times(n, x / n as real) == x
  {
    TimesIsProduct(n, x / n as real);
  }

  /** n copies of x, for natural numbers. */
  function Product(n: nat, x: nat): nat
  {
    if n == 0 then 0 else Product(n - 1, x) + x
  }

  lemma {:induction false} ProductIs(n: nat, x: nat)
    ensures Product(n, x) == n * x
  {
    if n > 0 {
      ProductIs(n - 1, x);
      assert n * x == (n - 1) * x + x;
    }
  }

  lemma {:induction false} ProductMonotone(k: nat, n: nat, x: nat)
    requires k <= n
    ensures Product(k, x) <= Product(n, x)
  {
    if k < n {
      ProductMonotone(k, n - 1, x);
    }
  }

  function One(b: bool): nat
  {
    if b then 1 else 0
  }
}
