/**
 The contiguous dynamic program CDP (lb/src/lb_contig_improv.cc): ranks get chunks of size na = floor(n/m) or
 nb = ceil(n/m), in the order that makes the most expensive chunk cheapest.
 */
module Cdp {
  import opened Sums
  import opened Placement
  import opened Layouts
  import Contiguous

  /** i chunks of size na and j of size nb. */
  function Cells(na: nat, nb: nat, i: nat, j: nat): nat
  {
    if i > 0 then Cells(na, nb, i - 1, j) + na
    else if j > 0 then Cells(na, nb, 0, j - 1) + nb
    else 0
  }

  lemma {:induction false} CellsProduct(na: nat, nb: nat, i: nat, j: nat)
    ensures Cells(na, nb, i, j) == i * na + j * nb
  {
    if i > 0 {
      CellsProduct(na, nb, i - 1, j);
      assert i * na == (i - 1) * na + na;
    } else if j > 0 {
      CellsProduct(na, nb, 0, j - 1);
      assert j * nb == (j - 1) * nb + nb;
    }
  }

  lemma {:induction false} CellsStep(na: nat, nb: nat, i: nat, j: nat)
    requires j > 0
    ensures Cells(na, nb, i, j) == Cells(na, nb, i, j - 1) + nb
  {
    if i > 0 {
      CellsStep(na, nb, i - 1, j);
    }
  }

  lemma {:induction false} CellsMonotone(na: nat, nb: nat, i: nat, j: nat, i': nat, j': nat)
    requires i <= i' && j <= j'
    ensures Cells(na, nb, i, j) <= Cells(na, nb, i', j')
    decreases i' + j' - i - j
  {
    if i < i' {
      CellsMonotone(na, nb, i, j, i' - 1, j');
    } else if j < j' {
      CellsMonotone(na, nb, i, j, i', j' - 1);
      CellsStep(na, nb, i', j');
    }
  }

  // ----- the reference: the best order of chunks -----

  /** What a last chunk of the given size, ending before block l, makes of the value for the chunks before it. */
  function Extend(prefix: seq<real>, size: nat, l: nat, before: real): real
    requires size <= l < |prefix|
  {
    Max(prefix[l] - prefix[l - size], before)
  }

  /** The least possible most-expensive chunk over all orders of i na-chunks and j nb-chunks, by its last chunk. */
  function Best(prefix: seq<real>, na: nat, nb: nat, i: nat, j: nat): real
    requires Cells(na, nb, i, j) < |prefix|
    decreases i + j
  {
    var l := Cells(na, nb, i, j);
    if i == 0 && j == 0 then 0.0
    else if i == 0 then
      Extend(prefix, nb, l, Best(prefix, na, nb, i, j - 1))
    else if j == 0 then Extend(prefix, na, l, Best(prefix, na, nb, i - 1, j))
    else
      CellsStep(na, nb, i, j);
      Min(Extend(prefix, na, l, Best(prefix, na, nb, i - 1, j)), Extend(prefix, nb, l, Best(prefix, na, nb, i, j - 1)))
  }

  function Min(a: real, b: real): real
  {
    if a <= b then a else b
  }

  /** Whether an na-chunk is no worse as the last chunk. */
  predicate TakesA(prefix: seq<real>, na: nat, nb: nat, i: nat, j: nat)
    requires Cells(na, nb, i, j) < |prefix|
  {
    i > 0 && (j == 0 ||
      (CellsStep(na, nb, i, j);
       var l := Cells(na, nb, i, j);
       Extend(prefix, na, l, Best(prefix, na, nb, i - 1, j)) <= Extend(prefix, nb, l, Best(prefix, na, nb, i, j - 1))))
  }

  /** The choice function of the backtracking loop. */
  function Choices(prefix: seq<real>, na: nat, nb: nat): (nat, nat) -> bool
  {
    (i: nat, j: nat) => Cells(na, nb, i, j) < |prefix| && TakesA(prefix, na, nb, i, j)
  }

  /** Whether a choice function picks an na-chunk when i and j chunks remain. */
  predicate PicksA(choice: (nat, nat) -> bool, i: nat, j: nat)
  {
    i > 0 && (j == 0 || choice(i, j))
  }

  ghost predicate AgreesAt(choice: (nat, nat) -> bool, prefix: seq<real>, na: nat, nb: nat, i: nat, j: nat)
  {
    Cells(na, nb, i, j) < |prefix| ==> (PicksA(choice, i, j) <==> TakesA(prefix, na, nb, i, j))
  }

  /** The choice function picks as the backtracking loop does. */
  ghost predicate Agrees(choice: (nat, nat) -> bool, prefix: seq<real>, na: nat, nb: nat)
  {
    forall i: nat, j: nat :: AgreesAt(choice, prefix, na, nb, i, j)
  }

  lemma ChoicesAgree(prefix: seq<real>, na: nat, nb: nat)
    ensures Agrees(Choices(prefix, na, nb), prefix, na, nb)
  {
  }

  /** The chunk sizes in rank order, found from the last rank to the first. */
  function ChosenSizes(choice: (nat, nat) -> bool, na: nat, nb: nat, i: nat, j: nat): (sizes: seq<nat>)
    ensures |sizes| == i + j
    decreases i + j
  {
    if i == 0 && j == 0 then []
    else if PicksA(choice, i, j) then ChosenSizes(choice, na, nb, i - 1, j) + [na]
    else ChosenSizes(choice, na, nb, i, j - 1) + [nb]
  }

  /** One step of the choice: the chunks that remain, and the size of the chunk taken off the end. */
  function Remaining(choice: (nat, nat) -> bool, i: nat, j: nat): (rest: (nat, nat))
    requires 0 < i + j
    ensures rest.0 + rest.1 == i + j - 1
  {
    if PicksA(choice, i, j) then (i - 1, j) else (i, j - 1)
  }

  function LastSize(choice: (nat, nat) -> bool, na: nat, nb: nat, i: nat, j: nat): nat
  {
    if PicksA(choice, i, j) then na else nb
  }

  lemma ChosenSizesStep(choice: (nat, nat) -> bool, na: nat, nb: nat, i: nat, j: nat, i': nat, j': nat)
    requires 0 < i + j && (i', j') == Remaining(choice, i, j)
    ensures ChosenSizes(choice, na, nb, i, j) == ChosenSizes(choice, na, nb, i', j') + [LastSize(choice, na, nb, i, j)]
  {
  }

  lemma CellsRemaining(choice: (nat, nat) -> bool, na: nat, nb: nat, i: nat, j: nat, i': nat, j': nat)
    requires 0 < i + j && (i', j') == Remaining(choice, i, j)
    ensures Cells(na, nb, i, j) == Cells(na, nb, i', j') + LastSize(choice, na, nb, i, j)
  {
    if !PicksA(choice, i, j) {
      CellsStep(na, nb, i, j);
    }
  }

  lemma OneMore(front: seq<nat>, last: nat, na: nat, nb: nat)
    requires forall r :: 0 <= r < |front| ==> front[r] in [na, nb]
    requires last in [na, nb]
    ensures forall r :: 0 <= r < |front + [last]| ==> (front + [last])[r] in [na, nb]
  {
  }

  /** Whatever is chosen, the list is an order of the chunks. */
  lemma {:induction false} ChosenSizesShape(choice: (nat, nat) -> bool, na: nat, nb: nat, i: nat, j: nat)
    ensures Total(ChosenSizes(choice, na, nb, i, j)) == Cells(na, nb, i, j)
    ensures forall r :: 0 <= r < i + j ==> ChosenSizes(choice, na, nb, i, j)[r] in [na, nb]
    decreases i + j
  {
    if i + j > 0 {
      var (i', j') := Remaining(choice, i, j);
      var last := LastSize(choice, na, nb, i, j);
      ChosenSizesShape(choice, na, nb, i', j');
      ChosenSizesStep(choice, na, nb, i, j, i', j');
      CellsRemaining(choice, na, nb, i, j, i', j');
      LayoutAppend(ChosenSizes(choice, na, nb, i', j'), last);
      OneMore(ChosenSizes(choice, na, nb, i', j'), last, na, nb);
    }
  }

  /** What the backtracking loop marks when i and j chunks remain. */
  function Marks(choice: (nat, nat) -> bool, na: nat, nb: nat, i: nat, j: nat): seq<int>
    decreases i + j
  {
    if i == 0 && j == 0 then []
    else if PicksA(choice, i, j) then Marks(choice, na, nb, i - 1, j) + Run(na, i + j - 1)
    else Marks(choice, na, nb, i, j - 1) + Run(nb, i + j - 1)
  }

  lemma MarksStep(choice: (nat, nat) -> bool, na: nat, nb: nat, i: nat, j: nat, i': nat, j': nat)
    requires 0 < i + j && (i', j') == Remaining(choice, i, j)
    ensures Marks(choice, na, nb, i, j)
            == Marks(choice, na, nb, i', j') + Run(LastSize(choice, na, nb, i, j), i' + j')
  {
  }

  /** The marks are the layout of the chosen sizes. */
  lemma {:induction false} MarksAreLayout(choice: (nat, nat) -> bool, na: nat, nb: nat, i: nat, j: nat)
    ensures Marks(choice, na, nb, i, j) == Layout(ChosenSizes(choice, na, nb, i, j))
    decreases i + j
  {
    if i + j > 0 {
      var (i', j') := Remaining(choice, i, j);
      MarksAreLayout(choice, na, nb, i', j');
      MarksStep(choice, na, nb, i, j, i', j');
      ChosenSizesStep(choice, na, nb, i, j, i', j');
      LayoutAppend(ChosenSizes(choice, na, nb, i', j'), LastSize(choice, na, nb, i, j));
    }
  }

  /** The last chunk of a layout. */
  lemma MaxChunkStep(prefix: seq<real>, front: seq<nat>, last: nat, l: nat)
    requires l < |prefix| && l == Total(front) + last
    ensures Total(front + [last]) == l
    ensures MaxChunk(prefix, front + [last]) == Extend(prefix, last, l, MaxChunk(prefix, front))
  {
    assert (front + [last])[..|front|] == front;
  }

  /** One step of the recursion for the value. */
  lemma BestStep(prefix: seq<real>, na: nat, nb: nat, i: nat, j: nat)
    requires 0 < i + j && Cells(na, nb, i, j) < |prefix|
    ensures TakesA(prefix, na, nb, i, j) ==>
              Best(prefix, na, nb, i, j) == Extend(prefix, na, Cells(na, nb, i, j), Best(prefix, na, nb, i - 1, j))
    ensures !TakesA(prefix, na, nb, i, j) ==>
              && Cells(na, nb, i, j) == Cells(na, nb, i, j - 1) + nb
              && Best(prefix, na, nb, i, j) == Extend(prefix, nb, Cells(na, nb, i, j), Best(prefix, na, nb, i, j - 1))
  {
    if j > 0 {
      CellsStep(na, nb, i, j);
    }
  }

  /** The same along the choice function. */
  lemma BestRemaining(prefix: seq<real>, choice: (nat, nat) -> bool, na: nat, nb: nat, i: nat, j: nat, i': nat, j': nat)
    returns (l: nat, last: nat, rest: real)
    requires 0 < i + j && Cells(na, nb, i, j) < |prefix| && AgreesAt(choice, prefix, na, nb, i, j)
    requires (i', j') == Remaining(choice, i, j)
    ensures l == Cells(na, nb, i, j) == Cells(na, nb, i', j') + last && last == LastSize(choice, na, nb, i, j)
    ensures rest == Best(prefix, na, nb, i', j')
    ensures Best(prefix, na, nb, i, j) == Extend(prefix, last, l, rest)
  {
    CellsRemaining(choice, na, nb, i, j, i', j');
    BestStep(prefix, na, nb, i, j);
    l, last := Cells(na, nb, i, j), LastSize(choice, na, nb, i, j);
    if PicksA(choice, i, j) {
      rest := Best(prefix, na, nb, i - 1, j);
    } else {
      rest := Best(prefix, na, nb, i, j - 1);
    }
  }

  /** The backtracked order attains the optimum. */
  lemma {:induction false} ChosenSizesCost(prefix: seq<real>, choice: (nat, nat) -> bool, na: nat, nb: nat, i: nat,
                                           j: nat)
    requires Cells(na, nb, i, j) < |prefix| && Agrees(choice, prefix, na, nb)
    ensures Total(ChosenSizes(choice, na, nb, i, j)) == Cells(na, nb, i, j)
    ensures MaxChunk(prefix, ChosenSizes(choice, na, nb, i, j)) == Best(prefix, na, nb, i, j)
    decreases i + j
  {
    if i + j > 0 {
      var (i', j') := Remaining(choice, i, j);
      assert AgreesAt(choice, prefix, na, nb, i, j);
      var l, last, rest := BestRemaining(prefix, choice, na, nb, i, j, i', j');
      ChosenSizesCost(prefix, choice, na, nb, i', j');
      ChosenSizesStep(choice, na, nb, i, j, i', j');
      MaxChunkStep(prefix, ChosenSizes(choice, na, nb, i', j'), last, l);
    }
  }

  /** sizes has i chunks of size na and j of size nb, in some order. */
  ghost predicate IsChunking(sizes: seq<nat>, na: nat, nb: nat, i: nat, j: nat)
  {
    && |sizes| == i + j
    && (forall r :: 0 <= r < |sizes| ==> sizes[r] == na || sizes[r] == nb)
    && Count(sizes, na) == i
  }

  lemma WithoutLastChunk(sizes: seq<nat>, na: nat, nb: nat, i: nat, j: nat)
    requires na != nb && IsChunking(sizes, na, nb, i, j) && i + j > 0
    ensures var last, front := sizes[i + j - 1], sizes[..i + j - 1];
            if last == na then i > 0 && IsChunking(front, na, nb, i - 1, j)
            else last == nb && j > 0 && IsChunking(front, na, nb, i, j - 1)
  {
    CountAtMostLength(sizes[..i + j - 1], na);
  }

  /** Best is no worse than ending with either kind of chunk, whatever bounds the chunks before it. */
  lemma BestAtMost(prefix: seq<real>, na: nat, nb: nat, i: nat, j: nat, last: nat, before: real)
    requires Cells(na, nb, i, j) < |prefix|
    requires last <= Cells(na, nb, i, j)
    requires (last == na && i > 0 && Best(prefix, na, nb, i - 1, j) <= before)
          || (last == nb && j > 0 && (CellsStep(na, nb, i, j); Best(prefix, na, nb, i, j - 1) <= before))
    ensures Best(prefix, na, nb, i, j) <= Extend(prefix, last, Cells(na, nb, i, j), before)
  {
    if i == 0 || j == 0 {
    } else {
      CellsStep(na, nb, i, j);
    }
  }

  /** No order of the chunks does better. */
  lemma {:induction false} BestIsLeast(prefix: seq<real>, na: nat, nb: nat, i: nat, j: nat, sizes: seq<nat>)
    requires na != nb && Cells(na, nb, i, j) < |prefix| && IsChunking(sizes, na, nb, i, j)
    ensures Total(sizes) == Cells(na, nb, i, j)
    ensures Best(prefix, na, nb, i, j) <= MaxChunk(prefix, sizes)
    decreases i + j
  {
    if i + j > 0 {
      var last, front := sizes[i + j - 1], sizes[..i + j - 1];
      assert sizes == front + [last];
      WithoutLastChunk(sizes, na, nb, i, j);
      if last == na {
        BestIsLeast(prefix, na, nb, i - 1, j, front);
      } else {
        CellsStep(na, nb, i, j);
        BestIsLeast(prefix, na, nb, i, j - 1, front);
      }
      MaxChunkStep(prefix, front, last, Cells(na, nb, i, j));
      BestAtMost(prefix, na, nb, i, j, last, MaxChunk(prefix, front));
    }
  }

  lemma {:induction false} CountAtMostLength(s: seq<int>, x: int)
    ensures Count(s, x) <= |s|
    ensures (forall r :: 0 <= r < |s| ==> s[r] != x) ==> Count(s, x) == 0
  {
    if |s| > 0 {
      CountAtMostLength(s[..|s| - 1], x);
    }
  }

  ghost predicate Ascending(prefix: seq<real>)
  {
    forall a, b :: 0 <= a <= b < |prefix| ==> prefix[a] <= prefix[b]
  }

  /** The optimum never reaches the sentinel: it is at most the total cost. */
  lemma {:induction false} BestIsBounded(prefix: seq<real>, na: nat, nb: nat, i: nat, j: nat)
    requires Ascending(prefix) && Cells(na, nb, i, j) < |prefix|
    ensures 0.0 <= Best(prefix, na, nb, i, j) <= prefix[|prefix| - 1] - prefix[0]
    decreases i + j
  {
    if i > 0 {
      BestIsBounded(prefix, na, nb, i - 1, j);
    }
    if j > 0 {
      CellsStep(na, nb, i, j);
      BestIsBounded(prefix, na, nb, i, j - 1);
    }
  }

  // ----- the algorithm -----

  /** cum[k] holds the sum of costs[..k + 1]: the in-place running sum of the source. */
  ghost predicate IsCumulative(cum: array<real>, prefix: seq<real>)
    reads cum
  {
    |prefix| == cum.Length + 1 && prefix[0] == 0.0 && forall k :: 0 <= k < cum.Length ==> cum[k] == prefix[k + 1]
  }

  method CumulativeSums(costs: seq<real>) returns (cum: array<real>)
    ensures fresh(cum) && IsCumulative(cum, Prefixes(costs)) && cum.Length == |costs|
  {
    cum := new real[|costs|](k requires 0 <= k < |costs| => costs[k]);
    if |costs| == 0 {
      return;
    }
    assert costs[..1] == [costs[0]];
    assert Sum(costs[..1]) == costs[0];
    for i := 1 to |costs|
      invariant forall k :: 0 <= k < i ==> cum[k] == Prefixes(costs)[k + 1]
      invariant forall k :: i <= k < |costs| ==> cum[k] == costs[k]
    {
      assert costs[..i + 1][..i] == costs[..i];
      cum[i] := cum[i] + cum[i - 1];
    }
  }

  /** The sum of blocks a to b, both included; 0 when a is one past b. */
  method GetSumRange(cum: array<real>, ghost prefix: seq<real>, a: int, b: int) returns (sum: real)
    requires IsCumulative(cum, prefix) && 0 <= a <= b + 1 && 0 <= b < cum.Length
    ensures sum == prefix[b + 1] - prefix[a]
    ensures forall costs :: prefix == Prefixes(costs) ==> sum == RangeSum(costs, a, b + 1)
  {
    forall costs | prefix == Prefixes(costs) ensures prefix[b + 1] - prefix[a] == RangeSum(costs, a, b + 1) {
      PrefixDifference(costs, a, b + 1);
    }
    if a > 0 {
      return cum[b] - cum[a - 1];
    } else {
      return cum[b];
    }
  }

  /** A dp cell that has been decided. */
  ghost predicate Decided(dp: array2<real>, prefix: seq<real>, na: nat, nb: nat, i: int, j: int)
    requires 0 <= i < dp.Length0 && 0 <= j < dp.Length1
    reads dp
  {
    Cells(na, nb, i, j) < |prefix| && dp[i, j] == Best(prefix, na, nb, i, j)
  }

  /** l of the source: where i na-chunks and j nb-chunks end. */
  method ChunkEnd(na: nat, nb: nat, i: nat, j: nat) returns (l: nat)
    ensures l == Cells(na, nb, i, j)
  {
    CellsProduct(na, nb, i, j);
    l := i * na + j * nb;
  }

  /** The costs of ending with either kind of chunk; the sentinel where there is none to end with. */
  method LastChunkCosts(cum: array<real>, dp: array2<real>, ghost prefix: seq<real>, na: nat, nb: nat, i: nat, j: nat,
                        big: real)
    returns (opt1: real, opt2: real)
    requires IsCumulative(cum, prefix) && 0 < na && 0 < nb
    requires i < dp.Length0 && j < dp.Length1 && Cells(na, nb, i, j) < |prefix|
    requires i > 0 ==> Decided(dp, prefix, na, nb, i - 1, j)
    requires j > 0 ==> Decided(dp, prefix, na, nb, i, j - 1)
    ensures opt1 == if i > 0 then Extend(prefix, na, Cells(na, nb, i, j), Best(prefix, na, nb, i - 1, j)) else big
    ensures j == 0 ==> opt2 == big
    ensures j > 0 ==> && Cells(na, nb, i, j - 1) + nb == Cells(na, nb, i, j)
                      && opt2 == Extend(prefix, nb, Cells(na, nb, i, j), Best(prefix, na, nb, i, j - 1))
  {
    var l := ChunkEnd(na, nb, i, j);
    opt1 := big;
    if l >= na && i > 0 {
      var chunk := GetSumRange(cum, prefix, l - na, l - 1);
      opt1 := Max(chunk, dp[i - 1, j]);
    }
    opt2 := big;
    if j > 0 {
      CellsStep(na, nb, i, j);
    }
    if l >= nb && j > 0 {
      var chunk := GetSumRange(cum, prefix, l - nb, l - 1);
      opt2 := Max(chunk, dp[i, j - 1]);
    }
  }

  /** The cheaper option is the optimum, and below the sentinel unless everything is free. */
  lemma CheaperIsBest(prefix: seq<real>, na: nat, nb: nat, i: nat, j: nat, opt1: real, opt2: real, big: real)
    requires Ascending(prefix) && Cells(na, nb, i, j) < |prefix| && i + j > 0
    requires big == (prefix[|prefix| - 1] - prefix[0]) * 1000.0
    requires opt1 == if i > 0 then Extend(prefix, na, Cells(na, nb, i, j), Best(prefix, na, nb, i - 1, j)) else big
    requires j == 0 ==> opt2 == big
    requires j > 0 ==> && Cells(na, nb, i, j - 1) + nb == Cells(na, nb, i, j)
                       && opt2 == Extend(prefix, nb, Cells(na, nb, i, j), Best(prefix, na, nb, i, j - 1))
    ensures Min(Min(opt1, opt2), big) == Min(opt1, opt2) == Best(prefix, na, nb, i, j)
    ensures big == Best(prefix, na, nb, i, j) <==> big == 0.0
    ensures big > 0.0 ==> (Min(opt1, opt2) == opt1 <==> TakesA(prefix, na, nb, i, j))
  {
    BestIsBounded(prefix, na, nb, i, j);
    if i > 0 {
      BestIsBounded(prefix, na, nb, i - 1, j);
    }
    if j > 0 {
      BestIsBounded(prefix, na, nb, i, j - 1);
    }
  }

  /** A dp cell as initialized. */
  ghost predicate Initial(dp: array2<real>, big: real, i: int, j: int)
    requires 0 <= i < dp.Length0 && 0 <= j < dp.Length1
    reads dp
  {
    dp[i, j] == if i == 0 && j == 0 then 0.0 else big
  }

  /** The body of the nested loops. */
  method DecideCell(cum: array<real>, dp: array2<real>, ghost prefix: seq<real>, na: nat, nb: nat, i: nat, j: nat,
                    big: real)
    requires IsCumulative(cum, prefix) && Ascending(prefix) && 0 < na && 0 < nb
    requires big == (prefix[|prefix| - 1] - prefix[0]) * 1000.0
    requires i < dp.Length0 && j < dp.Length1 && Cells(na, nb, i, j) < |prefix|
    requires Initial(dp, big, i, j)
    requires i > 0 ==> Decided(dp, prefix, na, nb, i - 1, j)
    requires j > 0 ==> Decided(dp, prefix, na, nb, i, j - 1)
    modifies dp
    ensures Decided(dp, prefix, na, nb, i, j)
    ensures forall i', j' :: 0 <= i' < dp.Length0 && 0 <= j' < dp.Length1 && (i' != i || j' != j) ==>
              dp[i', j'] == old(dp[i', j'])
  {
    var opt1, opt2 := LastChunkCosts(cum, dp, prefix, na, nb, i, j, big);
    var cost := Min(Min(opt1, opt2), big);
    if i + j > 0 {
      CheaperIsBest(prefix, na, nb, i, j, opt1, opt2, big);
    }
    if cost != big {
      dp[i, j] := cost;
    }
  }

  /** The cells before (i, j) in row order are decided, the others as initialized. */
  ghost predicate TableUpTo(dp: array2<real>, prefix: seq<real>, na: nat, nb: nat, big: real, i: nat, j: nat)
    reads dp
  {
    forall i', j' :: 0 <= i' < dp.Length0 && 0 <= j' < dp.Length1 ==>
      if i' < i || (i' == i && j' < j) then Decided(dp, prefix, na, nb, i', j') else Initial(dp, big, i', j')
  }

  /** The nested loops over the table. */
  method FillTable(cum: array<real>, dp: array2<real>, ghost prefix: seq<real>, na: nat, nb: nat, big: real)
    requires IsCumulative(cum, prefix) && Ascending(prefix) && 0 < na && 0 < nb
    requires big == (prefix[|prefix| - 1] - prefix[0]) * 1000.0
    requires dp.Length0 > 0 && dp.Length1 > 0 && Cells(na, nb, dp.Length0 - 1, dp.Length1 - 1) < |prefix|
    requires TableUpTo(dp, prefix, na, nb, big, 0, 0)
    modifies dp
    ensures TableUpTo(dp, prefix, na, nb, big, dp.Length0, 0)
  {
    for i := 0 to dp.Length0
      invariant TableUpTo(dp, prefix, na, nb, big, i, 0)
    {
      for j := 0 to dp.Length1
        invariant TableUpTo(dp, prefix, na, nb, big, i, j)
      {
        CellsMonotone(na, nb, i, j, dp.Length0 - 1, dp.Length1 - 1);
        assert i > 0 ==> Decided(dp, prefix, na, nb, i - 1, j);
        assert j > 0 ==> Decided(dp, prefix, na, nb, i, j - 1);
        assert Initial(dp, big, i, j);
        label Before:
        DecideCell(cum, dp, prefix, na, nb, i, j, big);
        forall i', j' | 0 <= i' < dp.Length0 && 0 <= j' < dp.Length1
          ensures if i' < i || (i' == i
                    && j' < j + 1) then Decided(dp, prefix, na, nb, i', j') else Initial(dp, big, i', j')
        {
          if i' != i || j' != j {
            assert dp[i', j'] == old@Before(dp[i', j']);
            assert i' < i || (i' == i && j' < j) ==> old@Before(Decided(dp, prefix, na, nb, i', j'));
            assert !(i' < i || (i' == i && j' < j)) ==> old@Before(Initial(dp, big, i', j'));
          }
        }
      }
    }
  }

  /** MarkRange: blocks a to b, both included, go to rank. */
  method MarkRange(ranklist: array<int>, a: int, b: int, rank: int)
    requires 0 <= a <= b + 1 <= ranklist.Length
    modifies ranklist
    ensures ranklist[..a] == old(ranklist[..a])
    ensures ranklist[a..] == Run(b + 1 - a, rank) + old(ranklist[b + 1..])
  {
    var i := a;
    while i <= b
      invariant a <= i <= b + 1
      invariant forall k :: a <= k < i ==> ranklist[k] == rank
      invariant forall k :: 0 <= k < ranklist.Length && !(a <= k < i) ==> ranklist[k] == old(ranklist[k])
    {
      ranklist[i] := rank;
      i := i + 1;
    }
  }

  /** The options at one backtracking step; valid is the assertion on the sentinel. */
  method ChooseLast(cum: array<real>, dp: array2<real>, ghost prefix: seq<real>, ghost choice: (nat, nat) -> bool,
                    na: nat, nb: nat, i: nat, j: nat, big: real)
    returns (valid: bool, takesA: bool)
    requires IsCumulative(cum, prefix) && Ascending(prefix) && 0 < na && 0 < nb
    requires big == (prefix[|prefix| - 1] - prefix[0]) * 1000.0
    requires i < dp.Length0 && j < dp.Length1 && 0 < i + j && Cells(na, nb, i, j) < |prefix|
    requires TableUpTo(dp, prefix, na, nb, big, dp.Length0, 0)
    requires Agrees(choice, prefix, na, nb)
    ensures valid <==> big > 0.0
    ensures valid ==> (takesA <==> PicksA(choice, i, j))
  {
    assert AgreesAt(choice, prefix, na, nb, i, j);
    assert i > 0 ==> Decided(dp, prefix, na, nb, i - 1, j);
    assert j > 0 ==> Decided(dp, prefix, na, nb, i, j - 1);
    var opt1, opt2 := LastChunkCosts(cum, dp, prefix, na, nb, i, j, big);
    var cost := Min(opt1, opt2);
    CheaperIsBest(prefix, na, nb, i, j, opt1, opt2, big);
    valid := cost != big;
    takesA := cost == opt1;
  }

  /** Marks the last unmarked chunk, so that goal needs only `front` before what is marked. */
  method MarkChunk(ranklist: array<int>, l: nat, size: nat, rank: int, ghost front: seq<int>, ghost goal: seq<int>)
    requires size <= l <= ranklist.Length
    requires goal == front + Run(size, rank) + ranklist[l..]
    modifies ranklist
    ensures goal == front + ranklist[l - size..]
  {
    MarkRange(ranklist, l - size, l - 1, rank);
  }

  /** The body of the backtracking loop: takes one chunk off the end and marks it. */
  method BacktrackStep(cum: array<real>, dp: array2<real>, ranklist: array<int>, ghost prefix: seq<real>,
                       ghost choice: (nat, nat) -> bool, na: nat, nb: nat, i: nat, j: nat, rank: int, big: real,
                       ghost goal: seq<int>)
    returns (valid: bool, i': nat, j': nat)
    requires IsCumulative(cum, prefix) && Ascending(prefix) && 0 < na && 0 < nb
    requires big == (prefix[|prefix| - 1] - prefix[0]) * 1000.0
    requires i < dp.Length0 && j < dp.Length1 && 0 < i + j && rank == i + j - 1
    requires Cells(na, nb, i, j) <= cum.Length == ranklist.Length
    requires TableUpTo(dp, prefix, na, nb, big, dp.Length0, 0) && Agrees(choice, prefix, na, nb)
    requires goal == Marks(choice, na, nb, i, j) + ranklist[Cells(na, nb, i, j)..]
    modifies ranklist
    ensures valid <==> big > 0.0
    ensures valid ==> i' <= i && j' <= j && i' + j' == i + j - 1
    ensures valid ==> Cells(na, nb, i', j') <= ranklist.Length
    ensures valid ==> goal == Marks(choice, na, nb, i', j') + ranklist[Cells(na, nb, i', j')..]
  {
    var l := ChunkEnd(na, nb, i, j);
    var takesA;
    i', j' := i, j;
    valid, takesA := ChooseLast(cum, dp, prefix, choice, na, nb, i, j, big);
    if !valid {
      return;
    }
    if takesA {
      i' := i - 1;
      MarkChunk(ranklist, l, na, rank, Marks(choice, na, nb, i', j'), goal);
    } else {
      j' := j - 1;
      CellsStep(na, nb, i, j);
      MarkChunk(ranklist, l, nb, rank, Marks(choice, na, nb, i', j'), goal);
    }
  }

  /** The backtracking loop; false when its assertion on the sentinel fails. */
  method Backtrack(cum: array<real>, dp: array2<real>, ranklist: array<int>, ghost prefix: seq<real>,
                   ghost choice: (nat, nat) -> bool, na: nat, nb: nat, big: real)
    returns (ok: bool)
    requires IsCumulative(cum, prefix) && Ascending(prefix) && 0 < na && 0 < nb
    requires big == (prefix[|prefix| - 1] - prefix[0]) * 1000.0
    requires dp.Length0 > 0 && dp.Length1 > 0
    requires Cells(na, nb, dp.Length0 - 1, dp.Length1 - 1) == cum.Length == ranklist.Length > 0
    requires TableUpTo(dp, prefix, na, nb, big, dp.Length0, 0)
    requires Agrees(choice, prefix, na, nb)
    modifies ranklist
    ensures ok <==> big > 0.0
    ensures ok ==> ranklist[..] == Marks(choice, na, nb, dp.Length0 - 1, dp.Length1 - 1)
  {
    var i: nat, j: nat := dp.Length0 - 1, dp.Length1 - 1;
    var rank := i + j - 1;
    ghost var goal := Marks(choice, na, nb, i, j);
    ghost var start := i + j;
    assert ranklist[cum.Length..] == [];
    while i > 0 || j > 0
      invariant 0 <= i < dp.Length0 && 0 <= j < dp.Length1 && rank == i + j - 1
      invariant TableUpTo(dp, prefix, na, nb, big, dp.Length0, 0) && IsCumulative(cum, prefix)
      invariant Cells(na, nb, i, j) <= cum.Length
      invariant i + j < start ==> big > 0.0
      invariant goal == Marks(choice, na, nb, i, j) + ranklist[Cells(na, nb, i, j)..]
      decreases i + j
    {
      var valid;
      valid, i, j := BacktrackStep(cum, dp, ranklist, prefix, choice, na, nb, i, j, rank, big, goal);
      if !valid {
        return false;
      }
      rank := rank - 1;
    }
    return true;
  }

  // ----- the policy -----

  /** floor and ceiling of nblocks / nranks, and how many ranks get each. */
  function SmallChunk(nblocks: nat, nranks: nat): nat
    requires 0 < nranks
  {
    nblocks / nranks
  }

  function LargeChunk(nblocks: nat, nranks: nat): nat
    requires 0 < nranks
  {
    if nblocks % nranks == 0 then nblocks / nranks else nblocks / nranks + 1
  }

  lemma ChunksCoverBlocks(nblocks: nat, nranks: nat)
    requires 0 < nranks
    ensures var b := nblocks % nranks;
            Cells(SmallChunk(nblocks, nranks), LargeChunk(nblocks, nranks), nranks - b, b) == nblocks
  {
    var q, b := nblocks / nranks, nblocks % nranks;
    CellsProduct(q, LargeChunk(nblocks, nranks), nranks - b, b);
    if b > 0 {
      TwoSizes(nranks, b, q);
    }
  }

  lemma TwoSizes(n: nat, b: nat, q: nat)
    requires b <= n
    ensures (n - b) * q + b * (q + 1) == q * n + b
  {
    assert b * (q + 1) == b * q + b;
    assert (n - b) * q == n * q - b * q;
  }

  /** The chunk sizes CDP settles on. */
  function CdpSizes(costs: seq<real>, nranks: nat): (sizes: seq<nat>)
    requires 0 < nranks
    ensures |sizes| == nranks
  {
    var na, nb, b := SmallChunk(|costs|, nranks), LargeChunk(|costs|, nranks), |costs| % nranks;
    ChosenSizes(Choices(Prefixes(costs), na, nb), na, nb, nranks - b, b)
  }

  /** The parts behind CdpSizes, and what is known about them. */
  lemma CdpParts(costs: seq<real>, nranks: nat) returns (choice: (nat, nat) -> bool, na: nat, nb: nat, i: nat, j: nat)
    requires 0 < nranks
    ensures na == SmallChunk(|costs|, nranks) && nb == LargeChunk(|costs|, nranks) && j == |costs| % nranks
              && i == nranks - j
    ensures na <= nb <= na + 1 && (|costs| >= nranks ==> 0 < na) && i + j == nranks && (j > 0 ==> nb == na + 1)
    ensures Cells(na, nb, i, j) == |costs|
    ensures Agrees(choice, Prefixes(costs), na, nb)
    ensures CdpSizes(costs, nranks) == ChosenSizes(choice, na, nb, i, j)
  {
    na, nb, i, j := ChunkNumbers(|costs|, nranks);
    choice := Choices(Prefixes(costs), na, nb);
    ChoicesAgree(Prefixes(costs), na, nb);
  }

  lemma ChunkNumbers(nblocks: nat, nranks: nat) returns (na: nat, nb: nat, i: nat, j: nat)
    requires 0 < nranks
    ensures na == SmallChunk(nblocks, nranks) && nb == LargeChunk(nblocks, nranks) && j == nblocks % nranks
              && i == nranks - j
    ensures na <= nb <= na + 1 && (nblocks >= nranks ==> 0 < na) && i + j == nranks && (j > 0 ==> nb == na + 1)
    ensures Cells(na, nb, i, j) == nblocks
  {
    na, nb := SmallChunk(nblocks, nranks), LargeChunk(nblocks, nranks);
    j := nblocks % nranks;
    i := nranks - j;
    ChunksCoverBlocks(nblocks, nranks);
    if nblocks >= nranks {
      assert nblocks / nranks >= 1;
    }
  }

  lemma PrefixesOfCosts(costs: seq<real>)
    requires Nonnegative(costs)
    ensures Ascending(Prefixes(costs))
    ensures Prefixes(costs)[0] == 0.0 && Prefixes(costs)[|costs|] == Sum(costs)
  {
    forall a, b | 0 <= a <= b < |costs| + 1 ensures Prefixes(costs)[a] <= Prefixes(costs)[b] {
      PrefixesAscend(costs, a, b);
    }
    assert costs[..|costs|] == costs;
  }

  /** Table and backtracking for given chunk sizes. */
  method SolveTable(costs: seq<real>, ranklist: array<int>, na: nat, nb: nat, allocA: nat, allocB: nat,
                    ghost choice: (nat, nat) -> bool) returns (ok: bool)
    requires Nonnegative(costs) && ranklist.Length == |costs| > 0
    requires 0 < na && 0 < nb && Cells(na, nb, allocA, allocB) == |costs|
    requires Agrees(choice, Prefixes(costs), na, nb)
    modifies ranklist
    ensures ok <==> Sum(costs) > 0.0
    ensures ok ==> ranklist[..] == Marks(choice, na, nb, allocA, allocB)
  {
    var total := Contiguous.Accumulate(costs);
    PrefixesOfCosts(costs);
    var cum := CumulativeSums(costs);
    var big := total * 1000.0;
    var dp := new real[allocA + 1, allocB + 1]((i, j) => big);
    dp[0, 0] := 0.0;
    FillTable(cum, dp, Prefixes(costs), na, nb, big);
    ok := Backtrack(cum, dp, ranklist, Prefixes(costs), choice, na, nb, big);
  }

  /** Succeeds exactly when some block costs something; otherwise the sentinel is 0 and the backtracking asserts. */
  method AssignBlocksDP(costs: seq<real>, ranklist: array<int>, nranks: nat) returns (ok: bool)
    requires 0 < nranks <= |costs| && Nonnegative(costs) && ranklist.Length == |costs|
    modifies ranklist
    ensures ok <==> Sum(costs) > 0.0
    ensures ok ==> ranklist[..] == Layout(CdpSizes(costs, nranks))
  {
    var nblocks := |costs|;
    var na := nblocks / nranks;
    var nb := if nblocks % nranks == 0 then nblocks / nranks else nblocks / nranks + 1;
    var allocB := nblocks % nranks;
    var allocA := nranks - allocB;
    ghost var choice, na', nb', i, j := CdpParts(costs, nranks);
    ok := SolveTable(costs, ranklist, na, nb, allocA, allocB, choice);
    MarksAreLayout(choice, na', nb', i, j);
  }

  /** The chunk counts of a contiguous placement whose ranks hold na or na + 1 blocks are forced. */
  lemma {:induction false} ChunkCounts(sizes: seq<nat>, na: nat)
    requires forall r :: 0 <= r < |sizes| ==> sizes[r] == na || sizes[r] == na + 1
    ensures Total(sizes) == |sizes| * na + (|sizes| - Count(sizes, na))
    ensures Count(sizes, na) <= |sizes|
  {
    var k := |sizes|;
    if k > 0 {
      ChunkCounts(sizes[..k - 1], na);
      assert k * na == (k - 1) * na + na;
    }
  }

  /** A balanced contiguous placement uses the same number of small and large chunks as CDP. */
  lemma BalancedIsChunking(sizes: seq<nat>, nblocks: nat, nranks: nat)
    requires 0 < nranks && |sizes| == nranks && Total(sizes) == nblocks
    requires forall r :: 0 <= r < nranks ==> sizes[r] == nblocks / nranks || sizes[r] == nblocks / nranks + 1
    ensures var b := nblocks % nranks; IsChunking(sizes, nblocks / nranks, nblocks / nranks + 1, nranks - b, b)
  {
    var q := nblocks / nranks;
    ChunkCounts(sizes, q);
    assert nblocks == nranks * q + nblocks % nranks;
  }

  /** Each rank holds lo or lo + 1 blocks. */
  ghost predicate IsBalanced(ranks: seq<int>, nranks: nat, lo: nat)
  {
    forall r :: 0 <= r < nranks ==> lo <= Count(ranks, r) <= lo + 1
  }

  /** A contiguous placement with all ranks in use and balanced block counts. */
  ghost predicate IsCandidate(ranks: seq<int>, nblocks: nat, nranks: nat)
    requires 0 < nranks
  {
    IsPlacement(ranks, nblocks, nranks) && NonDecreasing(ranks) && IsBalanced(ranks, nranks, nblocks / nranks)
  }

  lemma LayoutShape(sizes: seq<nat>, na: nat)
    requires 0 < na && forall r :: 0 <= r < |sizes| ==> na <= sizes[r] <= na + 1
    ensures IsPlacement(Layout(sizes), Total(sizes), |sizes|) && NonDecreasing(Layout(sizes))
    ensures UsesEveryRank(Layout(sizes), |sizes|)
    ensures IsBalanced(Layout(sizes), |sizes|, na)
  {
    LayoutIsContiguous(sizes);
    LayoutUsesEveryRank(sizes);
    forall r | 0 <= r < |sizes| ensures na <= Count(Layout(sizes), r) <= na + 1 {
      CountOfLayout(sizes, r);
    }
  }

  lemma ChosenLayoutShape(choice: (nat, nat) -> bool, na: nat, nb: nat, i: nat, j: nat)
    requires 0 < na <= nb <= na + 1
    ensures var p := Layout(ChosenSizes(choice, na, nb, i, j));
            && IsPlacement(p, Cells(na, nb, i, j), i + j) && NonDecreasing(p)
            && UsesEveryRank(p, i + j) && IsBalanced(p, i + j, na)
  {
    ChosenSizesShape(choice, na, nb, i, j);
    LayoutShape(ChosenSizes(choice, na, nb, i, j), na);
  }

  /** CDP's placement is contiguous, balanced and uses every rank. */
  lemma CdpIsCandidate(costs: seq<real>, nranks: nat)
    requires 0 < nranks <= |costs|
    ensures IsCandidate(Layout(CdpSizes(costs, nranks)), |costs|, nranks)
    ensures UsesEveryRank(Layout(CdpSizes(costs, nranks)), nranks)
  {
    var choice, na, nb, i, j := CdpParts(costs, nranks);
    ChosenLayoutShape(choice, na, nb, i, j);
  }

  lemma ChosenBeats(costs: seq<real>, choice: (nat, nat) -> bool, na: nat, i: nat, j: nat, sizes: seq<nat>, bound: real)
    requires Cells(na, na + 1, i, j) == |costs| && Agrees(choice, Prefixes(costs), na, na + 1)
    requires IsChunking(sizes, na, na + 1, i, j) && Total(sizes) == |costs| && 0.0 <= bound
    requires MaxLoadAtMost(costs, Layout(sizes), i + j, bound)
    ensures Total(ChosenSizes(choice, na, na + 1, i, j)) == |costs|
    ensures MaxLoadAtMost(costs, Layout(ChosenSizes(choice, na, na + 1, i, j)), i + j, bound)
  {
    assert costs[..|costs|] == costs;
    MaxChunkIsMaxLoad(costs, sizes, bound);
    BestIsLeast(Prefixes(costs), na, na + 1, i, j, sizes);
    ChosenSizesCost(Prefixes(costs), choice, na, na + 1, i, j);
    MaxChunkIsMaxLoad(costs, ChosenSizes(choice, na, na + 1, i, j), bound);
  }

  /**
   Main result. When the blocks do not divide evenly, no contiguous balanced placement has a smaller maximum load
   than CDP's.
   */
  lemma CdpIsOptimal(costs: seq<real>, nranks: nat, other: seq<int>, bound: real)
    requires 0 < nranks <= |costs| && |costs| % nranks != 0
    requires IsCandidate(other, |costs|, nranks) && 0.0 <= bound && MaxLoadAtMost(costs, other, nranks, bound)
    ensures |Layout(CdpSizes(costs, nranks))| == |costs|
    ensures MaxLoadAtMost(costs, Layout(CdpSizes(costs, nranks)), nranks, bound)
  {
    var choice, na, nb, i, j := CdpParts(costs, nranks);
    ContiguousIsLayout(other, nranks);
    BalancedIsChunking(Counts(other, nranks), |costs|, nranks);
    ChosenBeats(costs, choice, na, i, j, Counts(other, nranks), bound);
  }
}
