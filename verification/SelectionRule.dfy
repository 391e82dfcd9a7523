/**
 Which ranks GetLPTRanksV3 selects (lb/src/lb_cplx.cc), in terms of the rank loads alone: the order in which it takes
 them, and how close to the average the selection stays.
 */
module SelectionRule {
  import opened Sums
  import opened Sorting
  import opened Cplx

  // ----- the order of the picks -----

  predicate AreRanks(rankCosts: seq<real>, chosen: seq<int>)
  {
    forall i :: 0 <= i < |chosen| ==> 0 <= chosen[i] < |rankCosts|
  }

  /** How much more the chosen ranks carry than as many average ranks. */
  function Excess(rankCosts: seq<real>, avg: real, chosen: seq<int>): real
    requires AreRanks(rankCosts, chosen)
  {
    SelectedSum(rankCosts, chosen) - Times(|chosen|, avg)
  }

  /** Rank r carries most, or least, of the ranks not chosen. */
  ghost predicate IsTop(rankCosts: seq<real>, chosen: seq<int>, r: int)
  {
    && 0 <= r < |rankCosts| && r !in chosen
    && forall q :: 0 <= q < |rankCosts| && q !in chosen ==> rankCosts[q] <= rankCosts[r]
  }

  ghost predicate IsBottom(rankCosts: seq<real>, chosen: seq<int>, r: int)
  {
    && 0 <= r < |rankCosts| && r !in chosen
    && forall q :: 0 <= q < |rankCosts| && q !in chosen ==> rankCosts[r] <= rankCosts[q]
  }

  /** First a most loaded rank; then a least loaded one while the chosen carry too much, else a most loaded one. */
  ghost predicate IsNextPick(rankCosts: seq<real>, avg: real, chosen: seq<int>, r: int)
    requires AreRanks(rankCosts, chosen)
  {
    if chosen == [] then IsTop(rankCosts, chosen, r)
    else
      var excess := Excess(rankCosts, avg, chosen);
      excess != 0.0 && if excess > 0.0 then IsBottom(rankCosts, chosen, r) else IsTop(rankCosts, chosen, r)
  }

  ghost predicate ArePicks(rankCosts: seq<real>, avg: real, picks: seq<int>)
  {
    AreRanks(rankCosts, picks) && forall j :: 0 <= j < |picks| ==> IsNextPick(rankCosts, avg, picks[..j], picks[j])
  }

  /** After each of the first k picks some rank not yet chosen is not near the average. */
  ghost predicate GoesOn(rankCosts: seq<real>, avg: real, picks: seq<int>, k: int)
  {
    forall j :: 0 < j < k <= |picks| ==> !UnselectedAreBalanced(rankCosts, avg, picks[..j])
  }

  /** The picks end at the limit, on the average, or with the one after which all the others were near the average. */
  ghost predicate IsPickOrder(rankCosts: seq<real>, avg: real, nmax: nat, picks: seq<int>)
  {
    var k := |picks|;
    && 0 < k <= nmax && ArePicks(rankCosts, avg, picks) && GoesOn(rankCosts, avg, picks, k - 1)
    && (k == nmax || Excess(rankCosts, avg, picks) == 0.0
        || (k > 1 && UnselectedAreBalanced(rankCosts, avg, picks[..k - 1])))
  }

  // ----- spans as sets of ranks -----

  predicate IsInSpan(n: nat, s: Span, k: int)
  {
    0 <= k < s.front || n - s.back <= k < n
  }

  lemma EndsMember(order: seq<nat>, s: Span, r: int)
    requires s.Size() <= |order|
    ensures r in Ends(order, s) <==> exists k :: 0 <= k < |order| && IsInSpan(|order|, s, k) && order[k] == r
  {
    var ends, lo := Ends(order, s), |order| - s.back;
    forall i | 0 <= i < |ends| ensures ends[i] == order[if i < s.front then i else lo + (i - s.front)] {
    }
    if r in ends {
      var i :| 0 <= i < |ends| && ends[i] == r;
      var k := if i < s.front then i else lo + (i - s.front);
      assert IsInSpan(|order|, s, k) && order[k] == r;
    }
    if k :| 0 <= k < |order| && IsInSpan(|order|, s, k) && order[k] == r {
      var i := if k < s.front then k else s.front + (k - lo);
      assert ends[i] == r;
    }
  }

  /** picks are the ranks of the span. */
  ghost predicate AreSpanRanks(order: seq<nat>, s: Span, picks: seq<int>)
    requires s.Size() <= |order|
  {
    |picks| == s.Size() && forall r :: r in picks <==> r in Ends(order, s)
  }

  /** The position next to the span on either side is outside, and adding it adds its rank. */
  lemma SpanGrows(order: seq<nat>, s: Span, t: Span, k: nat, picks: seq<int>)
    requires IsPermutation(order, |order|) && t.Size() == s.Size() + 1 <= |order| && AreSpanRanks(order, s, picks)
    requires (t.front == s.front + 1 && k == s.front) || (t.back == s.back + 1 && k == |order| - 1 - s.back)
    requires t.front >= s.front && t.back >= s.back
    ensures order[k] !in picks && AreSpanRanks(order, t, picks + [order[k]])
  {
    EndsMember(order, s, order[k]);
    forall r ensures r in picks + [order[k]] <==> r in Ends(order, t) {
      EndsMember(order, s, r);
      EndsMember(order, t, r);
      if r in picks {
        var i :| 0 <= i < |order| && IsInSpan(|order|, s, i) && order[i] == r;
        assert IsInSpan(|order|, t, i);
      }
      assert IsInSpan(|order|, t, k);
    }
  }

  /** An unchosen rank stands between the two candidates. */
  lemma UnchosenBetween(rankCosts: seq<real>, order: seq<nat>, s: Span, picks: seq<int>, q: nat)
    requires IsDescendingOrder(rankCosts, order) && s.Size() < |order| && AreSpanRanks(order, s, picks)
    requires q < |rankCosts| && q !in picks
    ensures rankCosts[order[|order| - 1 - s.back]] <= rankCosts[q] <= rankCosts[order[s.front]]
  {
    UnselectedIsInside(order, s, q);
    var i :| s.front <= i < |order| - s.back && order[i] == q;
    var sorted := Permute(rankCosts, order);
    assert sorted[|order| - 1 - s.back] <= sorted[i] <= sorted[s.front];
  }

  lemma CandidatesAreEnds(rankCosts: seq<real>, order: seq<nat>, s: Span, picks: seq<int>)
    requires IsDescendingOrder(rankCosts, order) && s.Size() < |order| && AreSpanRanks(order, s, picks)
    ensures IsTop(rankCosts, picks, order[s.front])
    ensures IsBottom(rankCosts, picks, order[|order| - 1 - s.back])
  {
    SpanGrows(order, s, s.(front := s.front + 1), s.front, picks);
    SpanGrows(order, s, s.(back := s.back + 1), |order| - 1 - s.back, picks);
    forall q | 0 <= q < |rankCosts| && q !in picks
      ensures rankCosts[order[|order| - 1 - s.back]] <= rankCosts[q] <= rankCosts[order[s.front]]
    {
      UnchosenBetween(rankCosts, order, s, picks, q);
    }
  }

  lemma BalancedIffNear(rankCosts: seq<real>, avg: real, order: seq<nat>, s: Span, picks: seq<int>)
    requires IsDescendingOrder(rankCosts, order) && s.Size() < |order| && AreSpanRanks(order, s, picks)
    ensures UnselectedAreBalanced(rankCosts, avg, picks) <==> NearlyBalanced(Permute(rankCosts, order), avg, s)
  {
    CandidatesAreEnds(rankCosts, order, s, picks);
    var top, bottom := order[s.front], order[|order| - 1 - s.back];
    assert rankCosts[bottom] <= rankCosts[top];
    if UnselectedAreBalanced(rankCosts, avg, picks) {
      assert top !in picks && bottom !in picks;
    }
  }

  // ----- the picks of the growing rule -----

  lemma MeanDecides(rankCosts: seq<real>, avg: real, sorted: seq<real>, s: Span, picks: seq<int>)
    requires 0 < s.Size() <= |sorted| && |picks| == s.Size() && AreRanks(rankCosts, picks)
    requires SelectedSum(rankCosts, picks) == SpanSum(sorted, s)
    ensures SpanMean(sorted, s) > avg <==> Excess(rankCosts, avg, picks) > 0.0
    ensures SpanMean(sorted, s) == avg <==> Excess(rankCosts, avg, picks) == 0.0
  {
    var mean := SpanMean(sorted, s);
    TimesOfQuotient(s.Size(), SpanSum(sorted, s));
    if mean < avg {
      TimesOrder(s.Size(), mean, avg);
    } else {
      TimesOrder(s.Size(), avg, mean);
    }
  }

  lemma SelectedSumNext(rankCosts: seq<real>, picks: seq<int>, r: int)
    requires AreRanks(rankCosts, picks) && 0 <= r < |rankCosts|
    ensures AreRanks(rankCosts, picks + [r])
    ensures SelectedSum(rankCosts, picks + [r]) == SelectedSum(rankCosts, picks) + rankCosts[r]
  {
    assert Picked(rankCosts, picks + [r]) == Picked(rankCosts, picks) + [rankCosts[r]];
    SumAppend(Picked(rankCosts, picks), [rankCosts[r]]);
    SumSingleton(rankCosts[r]);
  }

  /** The ranks of a span in an order of picking, with no reason to stop before the last. */
  ghost predicate PickState(rankCosts: seq<real>, avg: real, order: seq<nat>, s: Span, picks: seq<int>)
  {
    && 0 < s.Size() <= |order| && AreSpanRanks(order, s, picks)
    && ArePicks(rankCosts, avg, picks) && GoesOn(rankCosts, avg, picks, |picks|)
    && IsPermutation(order, |rankCosts|)
    && SelectedSum(rankCosts, picks) == SpanSum(Permute(rankCosts, order), s)
  }

  lemma PicksNext(rankCosts: seq<real>, avg: real, picks: seq<int>, r: int)
    requires ArePicks(rankCosts, avg, picks) && 0 <= r < |rankCosts| && IsNextPick(rankCosts, avg, picks, r)
    ensures ArePicks(rankCosts, avg, picks + [r])
  {
    var more := picks + [r];
    forall j | 0 <= j < |more|
      ensures AreRanks(rankCosts, more[..j]) && IsNextPick(rankCosts, avg, more[..j], more[j])
    {
      if j < |picks| {
        assert more[..j] == picks[..j];
      } else {
        assert more[..j] == picks;
      }
    }
  }

  lemma GoesOnNext(rankCosts: seq<real>, avg: real, picks: seq<int>, r: int)
    requires GoesOn(rankCosts, avg, picks, |picks|)
    ensures GoesOn(rankCosts, avg, picks + [r], |picks|)
    ensures !UnselectedAreBalanced(rankCosts, avg, picks) ==> GoesOn(rankCosts, avg, picks + [r], |picks| + 1)
  {
    var more := picks + [r];
    forall j | 0 < j <= |picks| ensures more[..j] == picks[..j] {
    }
    assert picks[..|picks|] == picks;
  }

  /** The rank that widening a span adds. */
  function Added(order: seq<nat>, s: Span, t: Span): nat
    requires s.Size() < |order|
  {
    if t.back > s.back then order[|order| - 1 - s.back] else order[s.front]
  }

  lemma WidenPicks(rankCosts: seq<real>, avg: real, order: seq<nat>, s: Span, picks: seq<int>) returns (r: nat)
    requires PickState(rankCosts, avg, order, s, picks) && s.Size() < |order| && IsDescendingOrder(rankCosts, order)
    requires SpanMean(Permute(rankCosts, order), s) != avg
    ensures var t := Widen(Permute(rankCosts, order), avg, s);
            && AreSpanRanks(order, t, picks + [r]) && ArePicks(rankCosts, avg, picks + [r])
            && SelectedSum(rankCosts, picks + [r]) == SpanSum(Permute(rankCosts, order), t)
  {
    var sorted := Permute(rankCosts, order);
    var t := Widen(sorted, avg, s);
    r := Added(order, s, t);
    MeanDecides(rankCosts, avg, sorted, s, picks);
    CandidatesAreEnds(rankCosts, order, s, picks);
    SpanGrows(order, s, t, if t.back > s.back then |order| - 1 - s.back else s.front, picks);
    PicksNext(rankCosts, avg, picks, r);
    SelectedSumNext(rankCosts, picks, r);
    WidenSum(sorted, avg, s);
  }

  lemma {:induction false} GrowPicks(rankCosts: seq<real>, avg: real, nmax: nat, order: seq<nat>, s: Span,
                                     picks: seq<int>)
    returns (all: seq<int>)
    requires PickState(rankCosts, avg, order, s, picks) && IsDescendingOrder(rankCosts, order)
    requires s.Size() <= nmax <= |order|
    ensures IsPickOrder(rankCosts, avg, nmax, all)
    ensures var t := Grow(Permute(rankCosts, order), avg, nmax, s);
            t.Size() <= |order| && AreSpanRanks(order, t, all)
    decreases nmax - s.Size()
  {
    var sorted := Permute(rankCosts, order);
    MeanDecides(rankCosts, avg, sorted, s, picks);
    if s.Size() >= nmax || SpanMean(sorted, s) == avg {
      all := picks;
    } else {
      var r := WidenPicks(rankCosts, avg, order, s, picks);
      BalancedIffNear(rankCosts, avg, order, s, picks);
      GoesOnNext(rankCosts, avg, picks, r);
      GrowStep(sorted, avg, nmax, s);
      if NearlyBalanced(sorted, avg, s) {
        all := picks + [r];
        assert all[..|picks|] == picks;
      } else {
        all := GrowPicks(rankCosts, avg, nmax, order, Widen(sorted, avg, s), picks + [r]);
      }
    }
  }

  lemma FirstIsTop(rankCosts: seq<real>, order: seq<nat>)
    requires IsDescendingOrder(rankCosts, order) && 0 < |order|
    ensures IsTop(rankCosts, [], order[0])
  {
    var sorted := Permute(rankCosts, order);
    PermutationIsOnto(order, |rankCosts|);
    forall q | 0 <= q < |rankCosts| ensures rankCosts[q] <= rankCosts[order[0]] {
      assert q in order;
      var k :| 0 <= k < |order| && order[k] == q;
      assert sorted[k] <= sorted[0];
    }
  }

  lemma OnePick(rankCosts: seq<real>, avg: real, r: int)
    requires IsTop(rankCosts, [], r)
    ensures ArePicks(rankCosts, avg, [r]) && SelectedSum(rankCosts, [r]) == rankCosts[r]
  {
    assert [r][..0] == [];
    assert Picked(rankCosts, [r]) == [rankCosts[r]];
    SumSingleton(rankCosts[r]);
  }

  lemma FirstPick(rankCosts: seq<real>, avg: real, order: seq<nat>)
    requires IsDescendingOrder(rankCosts, order) && 0 < |order|
    ensures PickState(rankCosts, avg, order, Span(1, 0), [order[0]])
  {
    FirstIsTop(rankCosts, order);
    OnePick(rankCosts, avg, order[0]);
    assert Ends(order, Span(1, 0)) == [order[0]];
    StartSum(Permute(rankCosts, order));
  }

  /**
   Main result: the selected ranks are those of an order of picking, from a most loaded rank on, that takes from the
   idle end while the chosen carry more than average and from the loaded end while less, and stops for no other reason
   than the limit, the average, or all remaining ranks having been near it.
   */
  lemma SelectionInOrder(rankCosts: seq<real>, avg: real, nmax: nat, selected: seq<int>) returns (picks: seq<int>)
    requires IsSelection(rankCosts, avg, nmax, selected) && 0 < nmax <= |rankCosts|
    ensures IsPickOrder(rankCosts, avg, nmax, picks)
    ensures |picks| == |selected| && forall r :: r in picks <==> r in selected
  {
    var order :| IsSelectionBy(rankCosts, avg, nmax, selected, order);
    FirstPick(rankCosts, avg, order);
    picks := GrowPicks(rankCosts, avg, nmax, order, Span(1, 0), [order[0]]);
  }

  /** Some selected rank carries most; and if that is above the average some second one carries least. */
  lemma SelectionTakesBothEnds(rankCosts: seq<real>, avg: real, nmax: nat, selected: seq<int>)
    returns (top: int, bottom: int)
    requires IsSelection(rankCosts, avg, nmax, selected) && 0 < nmax <= |rankCosts|
    ensures top in selected && 0 <= top < |rankCosts|
    ensures forall q :: 0 <= q < |rankCosts| ==> rankCosts[q] <= rankCosts[top]
    ensures |selected| > 1 && rankCosts[top] > avg ==>
              bottom in selected && 0 <= bottom < |rankCosts| && bottom != top
    ensures |selected| > 1 && rankCosts[top] > avg ==>
              forall q :: 0 <= q < |rankCosts| ==> rankCosts[bottom] <= rankCosts[q]
  {
    var picks := SelectionInOrder(rankCosts, avg, nmax, selected);
    top, bottom := picks[0], picks[0];
    assert picks[..0] == [] && IsNextPick(rankCosts, avg, picks[..0], picks[0]);
    if |picks| > 1 && rankCosts[top] > avg {
      bottom := picks[1];
      OnePick(rankCosts, avg, top);
      SmallTimes(avg);
      assert picks[..1] == [top] && IsNextPick(rankCosts, avg, picks[..1], picks[1]);
    }
  }

  // ----- how close to the average -----

  lemma MiddleSum(sorted: seq<real>, s: Span)
    requires s.Size() <= |sorted|
    ensures Sum(sorted) == SpanSum(sorted, s) + Sum(sorted[s.front..|sorted| - s.back])
  {
    var hi := |sorted| - s.back;
    SumSplit(sorted, hi);
    SumSplit(sorted[..hi], s.front);
    assert sorted[..hi][..s.front] == sorted[..s.front] && sorted[..hi][s.front..] == sorted[s.front..hi];
  }

  /** What the span lacks the others have: its idle candidate is at most average if it carries too much, and so on. */
  lemma CandidateSides(sorted: seq<real>, avg: real, s: Span)
    requires Descending(sorted) && s.Size() < |sorted| && Sum(sorted) == Times(|sorted|, avg)
    ensures SpanSum(sorted, s) > Times(s.Size(), avg) ==> sorted[|sorted| - 1 - s.back] <= avg
    ensures SpanSum(sorted, s) <= Times(s.Size(), avg) ==> sorted[s.front] >= avg
  {
    var least, most := sorted[|sorted| - 1 - s.back], sorted[s.front];
    var middle := sorted[s.front..|sorted| - s.back];
    MiddleSum(sorted, s);
    SumBetween(middle, least, most);
    TimesSplit(s.Size(), |middle|, avg);
    if least > avg {
      TimesOrder(|middle|, avg, least);
    }
    if most < avg {
      TimesOrder(|middle|, most, avg);
    }
  }

  ghost predicate IsCloseTo(sorted: seq<real>, avg: real, s: Span, lo: real, hi: real)
    requires s.Size() <= |sorted|
  {
    lo - avg <= SpanSum(sorted, s) - Times(s.Size(), avg) <= hi - avg
  }

  lemma WidenStaysClose(sorted: seq<real>, avg: real, s: Span, lo: real, hi: real)
    requires Descending(sorted) && 0 < s.Size() < |sorted| && Sum(sorted) == Times(|sorted|, avg)
    requires (forall k :: 0 <= k < |sorted| ==> lo <= sorted[k] <= hi) && IsCloseTo(sorted, avg, s, lo, hi)
    ensures IsCloseTo(sorted, avg, Widen(sorted, avg, s), lo, hi)
  {
    CandidateSides(sorted, avg, s);
    WidenSum(sorted, avg, s);
    var mean := SpanMean(sorted, s);
    TimesOfQuotient(s.Size(), SpanSum(sorted, s));
    if mean > avg {
      TimesOrder(s.Size(), avg, mean);
    } else {
      TimesOrder(s.Size(), mean, avg);
    }
    assert Times(s.Size() + 1, avg) == Times(s.Size(), avg) + avg;
  }

  /** One step of the growing rule: either it is over, or it goes on from a wider span. */
  lemma GrowOnce(sorted: seq<real>, avg: real, nmax: nat, s: Span, lo: real, hi: real, t: Span)
    returns (more: bool, wider: Span)
    requires Descending(sorted) && 0 < s.Size() <= nmax <= |sorted| && Sum(sorted) == Times(|sorted|, avg)
    requires (forall k :: 0 <= k < |sorted| ==> lo <= sorted[k] <= hi) && IsCloseTo(sorted, avg, s, lo, hi)
    requires t == Grow(sorted, avg, nmax, s)
    ensures more ==> s.Size() < wider.Size() <= nmax && IsCloseTo(sorted, avg, wider, lo, hi)
                     && t == Grow(sorted, avg, nmax, wider)
    ensures !more ==> t.Size() <= |sorted| && IsCloseTo(sorted, avg, t, lo, hi)
  {
    more, wider := false, s;
    if s.Size() < nmax && SpanMean(sorted, s) != avg {
      WidenStaysClose(sorted, avg, s, lo, hi);
      GrowStep(sorted, avg, nmax, s);
      more, wider := !NearlyBalanced(sorted, avg, s), Widen(sorted, avg, s);
    }
  }

  lemma {:induction false} GrowStaysClose(sorted: seq<real>, avg: real, nmax: nat, s: Span, lo: real, hi: real, t: Span)
    requires Descending(sorted) && 0 < s.Size() <= nmax <= |sorted| && Sum(sorted) == Times(|sorted|, avg)
    requires (forall k :: 0 <= k < |sorted| ==> lo <= sorted[k] <= hi) && IsCloseTo(sorted, avg, s, lo, hi)
    requires t == Grow(sorted, avg, nmax, s)
    ensures t.Size() <= |sorted| && IsCloseTo(sorted, avg, t, lo, hi)
    decreases nmax - s.Size()
  {
    var more, wider := GrowOnce(sorted, avg, nmax, s, lo, hi, t);
    if more {
      GrowStaysClose(sorted, avg, nmax, wider, lo, hi, t);
    }
  }

  /**
   Main result: however many ranks are selected, what they carry in excess of average ranks is within what a single rank
   can be off the average.
   */
  lemma SelectionStaysClose(rankCosts: seq<real>, avg: real, nmax: nat, selected: seq<int>, lo: real, hi: real)
    requires IsSelection(rankCosts, avg, nmax, selected) && 0 < nmax <= |rankCosts|
    requires Sum(rankCosts) == Times(|rankCosts|, avg) && forall r :: 0 <= r < |rankCosts| ==> lo <= rankCosts[r] <= hi
    ensures AreRanks(rankCosts, selected)
    ensures lo - avg <= SelectedSum(rankCosts, selected) - Times(|selected|, avg) <= hi - avg
  {
    var order :| IsSelectionBy(rankCosts, avg, nmax, selected, order);
    var sorted := Permute(rankCosts, order);
    var t := Grow(sorted, avg, nmax, Span(1, 0));
    SumPermutation(rankCosts, order);
    StartSum(sorted);
    SmallTimes(avg);
    GrowStaysClose(sorted, avg, nmax, Span(1, 0), lo, hi, t);
    EndsSum(rankCosts, order, t);
    EndsElements(order, t);
  }
}
