/** Index orders as std::sort leaves them: ordered, ties in any order. */
module Sorting {
  import opened Sums

  ghost predicate Descending(c: seq<real>)
  {
    forall i, j :: 0 <= i <= j < |c| ==> c[j] <= c[i]
  }

  ghost predicate IsDescendingOrder(keys: seq<real>, order: seq<nat>)
  {
    IsPermutation(order, |keys|) && Descending(Permute(keys, order))
  }

  /** Puts index x into a sorted list of indices. */
  function InsertIndex(keys: seq<real>, order: seq<nat>, x: nat): (r: seq<nat>)
    requires x < |keys| && forall k :: 0 <= k < |order| ==> order[k] < |keys|
    ensures |r| == |order| + 1
    ensures multiset(r) == multiset(order) + multiset{x}
    ensures forall k :: 0 <= k < |r| ==> r[k] < |keys|
  {
    var n := |order|;
    if n == 0 || keys[x] <= keys[order[n - 1]] then order + [x]
    else
      assert order == order[..n - 1] + [order[n - 1]];
      InsertIndex(keys, order[..n - 1], x) + [order[n - 1]]
  }

  lemma InsertElements(keys: seq<real>, order: seq<nat>, x: nat, i: nat)
    requires x < |keys| && forall k :: 0 <= k < |order| ==> order[k] < |keys|
    requires i < |InsertIndex(keys, order, x)|
    ensures InsertIndex(keys, order, x)[i] == x || InsertIndex(keys, order, x)[i] in order
  {
    var r := InsertIndex(keys, order, x);
    assert r[i] in multiset(r);
  }

  ghost predicate DescendingIndices(keys: seq<real>, order: seq<nat>)
    requires forall k :: 0 <= k < |order| ==> order[k] < |keys|
  {
    forall i, j :: 0 <= i <= j < |order| ==> keys[order[j]] <= keys[order[i]]
  }

  lemma {:induction false} InsertKeepsOrder(keys: seq<real>, order: seq<nat>, x: nat)
    requires x < |keys| && forall k :: 0 <= k < |order| ==> order[k] < |keys|
    requires DescendingIndices(keys, order)
    ensures DescendingIndices(keys, InsertIndex(keys, order, x))
  {
    var n := |order|;
    if n > 0 && keys[x] > keys[order[n - 1]] {
      var rest := order[..n - 1];
      InsertKeepsOrder(keys, rest, x);
      var t := InsertIndex(keys, rest, x);
      forall i | 0 <= i < n ensures keys[order[n - 1]] <= keys[t[i]] {
        InsertElements(keys, rest, x, i);
      }
    }
  }

  lemma InsertKeepsDistinct(keys: seq<real>, order: seq<nat>, x: nat)
    requires x < |keys| && IsPermutation(order, x)
    ensures IsPermutation(InsertIndex(keys, order, x), x + 1)
  {
    var r := InsertIndex(keys, order, x);
    forall k | 0 <= k < |r| ensures r[k] < x + 1 {
      assert r[k] in multiset(r);
      assert r[k] == x || r[k] in order;
    }
    assert x !in order;
    forall i, j | 0 <= i < j < |r| ensures r[i] != r[j] {
      if r[i] == r[j] {
        SequenceTwice(r, i, j);
        var y: nat := r[i];
        DistinctOnce(order, y);
        assert false;
      }
    }
  }

  lemma SequenceTwice<T>(s: seq<T>, i: nat, j: nat)
    requires i < j < |s| && s[i] == s[j]
    ensures multiset(s)[s[i]] >= 2
  {
    assert s == s[..j] + [s[j]] + s[j + 1..];
    assert s[i] in s[..j];
  }

  lemma {:induction false} DistinctOnce<T>(s: seq<T>, x: T)
    requires Distinct(s)
    ensures multiset(s)[x] <= 1
  {
    if |s| > 0 {
      assert s == s[..|s| - 1] + [s[|s| - 1]];
      DistinctOnce(s[..|s| - 1], x);
      assert s[|s| - 1] !in s[..|s| - 1];
    }
  }

  /** std::iota followed by std::sort with a "greater cost" comparator; callers may rely on no tie order. */
  method SortIndices(keys: seq<real>) returns (order: seq<nat>)
    ensures IsDescendingOrder(keys, order)
  {
    order := [];
    for x := 0 to |keys|
      invariant IsPermutation(order, x)
      invariant DescendingIndices(keys, order)
    {
      InsertKeepsDistinct(keys, order, x);
      InsertKeepsOrder(keys, order, x);
      order := InsertIndex(keys, order, x);
    }
  }

  // ----- sorting by a total order -----

  ghost predicate IsTotalOrder<T(!new)>(le: (T, T) -> bool)
  {
    && (forall a, b :: le(a, b) || le(b, a))
    && (forall a, b, c :: le(a, b) && le(b, c) ==> le(a, c))
    && (forall a, b :: le(a, b) && le(b, a) ==> a == b)
  }

  ghost predicate SortedBy<T>(s: seq<T>, le: (T, T) -> bool)
  {
    forall i, j :: 0 <= i < j < |s| ==> le(s[i], s[j])
  }

  /** std::sort where equal keys are the same value. */
  method SortBy<T(!new)>(s: seq<T>, le: (T, T) -> bool) returns (r: seq<T>)
    requires IsTotalOrder(le)
    ensures multiset(r) == multiset(s) && SortedBy(r, le)
  {
    r := [];
    for i := 0 to |s|
      invariant multiset(r) == multiset(s[..i]) && SortedBy(r, le)
    {
      assert s[..i + 1] == s[..i] + [s[i]];
      r := Insert(r, s[i], le);
    }
    assert s[..|s|] == s;
  }

  method Insert<T(!new)>(s: seq<T>, x: T, le: (T, T) -> bool) returns (r: seq<T>)
    requires IsTotalOrder(le) && SortedBy(s, le)
    ensures multiset(r) == multiset(s) + multiset{x} && SortedBy(r, le)
  {
    var i := 0;
    while i < |s| && le(s[i], x)
      invariant 0 <= i <= |s| && forall k :: 0 <= k < i ==> le(s[k], x)
    {
      i := i + 1;
    }
    assert s == s[..i] + s[i..];
    r := s[..i] + [x] + s[i..];
    InsertSorted(s, i, x, le);
  }

  lemma InsertSorted<T(!new)>(s: seq<T>, i: nat, x: T, le: (T, T) -> bool)
    requires IsTotalOrder(le) && SortedBy(s, le) && i <= |s| && (forall k :: 0 <= k < i ==> le(s[k], x))
    requires i < |s| ==> !le(s[i], x)
    ensures SortedBy(s[..i] + [x] + s[i..], le)
  {
    var r := s[..i] + [x] + s[i..];
    forall a, b | 0 <= a < b < |r| ensures le(r[a], r[b]) {
      assert a != i ==> r[a] == s[if a < i then a else a - 1];
      assert b != i ==> r[b] == s[if b < i then b else b - 1];
      if a == i {
        assert le(x, s[i]);
      }
    }
  }

  lemma LastIsSame<T(!new)>(a: seq<T>, b: seq<T>, le: (T, T) -> bool)
    requires IsTotalOrder(le) && SortedBy(a, le) && SortedBy(b, le) && multiset(a) == multiset(b) && |a| == |b| > 0
    ensures a[|a| - 1] == b[|b| - 1]
  {
    var n := |a| - 1;
    assert a[n] in multiset(b) && b[n] in multiset(a);
    var k :| 0 <= k <= n && b[k] == a[n];
    var j :| 0 <= j <= n && a[j] == b[n];
  }

  lemma WithoutLast<T>(a: seq<T>, b: seq<T>)
    requires |a| == |b| > 0 && multiset(a) == multiset(b) && a[|a| - 1] == b[|b| - 1]
    ensures multiset(a[..|a| - 1]) == multiset(b[..|b| - 1])
  {
    var n := |a| - 1;
    assert a == a[..n] + [a[n]] && b == b[..n] + [b[n]];
    assert multiset(a[..n]) == multiset(a) - multiset{a[n]};
    assert multiset(b[..n]) == multiset(b) - multiset{b[n]};
  }

  /** Sorted lists of the same entries are equal. */
  lemma {:induction false} SortedByUnique<T(!new)>(a: seq<T>, b: seq<T>, le: (T, T) -> bool)
    requires IsTotalOrder(le) && SortedBy(a, le) && SortedBy(b, le) && multiset(a) == multiset(b)
    ensures a == b
  {
    assert |multiset(a)| == |a| && |multiset(b)| == |b|;
    if |a| > 0 {
      var n := |a| - 1;
      LastIsSame(a, b, le);
      WithoutLast(a, b);
      SortedByUnique(a[..n], b[..n], le);
      assert a == a[..n] + [a[n]] && b == b[..n] + [b[n]];
    }
  }
}
