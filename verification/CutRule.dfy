/**
 Where the chunker cuts (lb/src/lb_chunkwise.h, ComputeChunks), in terms of the costs alone: each chunk ends at the
 first block that meets the rule.
 */
module CutRule {
  import opened Sums
  import opened Placement
  import opened Chunkwise

  /**
   With k chunks left for the blocks from f on, one may end before block b: it has a block per rank and its share of
   what is left, or the k - 1 later chunks need all other blocks.
   */
  predicate MayEnd(costs: seq<real>, pc: nat, k: nat, f: nat, b: nat)
    requires f <= b <= |costs| && 0 < k
  {
    || (b - f >= pc && RangeSum(costs, f, b) >= RangeSum(costs, f, |costs|) / k as real - EPSILON)
    || |costs| - b <= (k - 1) * pc
  }

  /** It may not end before any of the blocks up to `end`. */
  ghost predicate MayNotEnd(costs: seq<real>, pc: nat, k: nat, f: nat, end: nat)
    requires end <= |costs| && 0 < k
  {
    forall b :: f < b <= end ==> !MayEnd(costs, pc, k, f, b)
  }

  /** The first block before which it may. */
  ghost predicate IsEnd(costs: seq<real>, pc: nat, k: nat, f: nat, end: nat)
    requires 0 < k
  {
    f < end <= |costs| && MayEnd(costs, pc, k, f, end) && MayNotEnd(costs, pc, k, f, end - 1)
  }

  /** Every chunk ends where it first may, and the last one with the last block. */
  ghost predicate AreRuleCuts(costs: seq<real>, pc: nat, nchunks: nat, cuts: seq<nat>)
  {
    && |cuts| <= nchunks && FirstBlock(cuts, |cuts|) == |costs|
    && forall c :: 0 <= c < |cuts| ==> IsEnd(costs, pc, nchunks - c, FirstBlock(cuts, c), cuts[c])
  }

  // ----- from the loop to the rule -----

  /** The same for the cuts from block f on. */
  ghost predicate RuleFrom(costs: seq<real>, pc: nat, k: nat, f: nat, cuts: seq<nat>)
  {
    if |cuts| == 0 then f == |costs|
    else 0 < k && IsEnd(costs, pc, k, f, cuts[0]) && RuleFrom(costs, pc, k - 1, cuts[0], cuts[1..])
  }

  /** The loop variables are what the rule speaks of, and the current chunk could not end before. */
  ghost predicate RuleState(costs: seq<real>, pc: nat, nchunks: nat, s: CutState)
  {
    && s.first <= s.block <= |costs| && s.cidx <= nchunks && (s.block == |costs| ==> s.first == |costs|)
    && s.cost == RangeSum(costs, s.first, s.block) && s.rem == RangeSum(costs, s.first, |costs|)
    && (s.cidx < nchunks ==> s.target == s.rem / (nchunks - s.cidx) as real)
    && (s.cidx < nchunks ==> MayNotEnd(costs, pc, nchunks - s.cidx, s.first, s.block))
  }

  lemma EndsIffMay(costs: seq<real>, pc: nat, nchunks: nat, s: CutState)
    requires RuleState(costs, pc, nchunks, s) && s.block < |costs| && s.cidx < nchunks
    ensures EndsChunk(costs, pc, nchunks, s) <==> MayEnd(costs, pc, nchunks - s.cidx, s.first, s.block + 1)
  {
    RangeStep(costs, s.first, s.block);
    ProductIs(nchunks - s.cidx - 1, pc);
  }

  lemma RuleNext(costs: seq<real>, pc: nat, nchunks: nat, s: CutState)
    requires RuleState(costs, pc, nchunks, s) && s.block < |costs| && s.cidx < nchunks
    ensures RuleState(costs, pc, nchunks, NextCut(costs, pc, nchunks, s))
  {
    EndsIffMay(costs, pc, nchunks, s);
    RangeStep(costs, s.first, s.block);
    RangeSplit(costs, s.first, s.block + 1, |costs|);
    assert RangeSum(costs, s.block + 1, s.block + 1) == 0.0;
    if s.block + 1 == |costs| {
      LastBlockMayEnd(costs, pc, nchunks - s.cidx, s.first);
    }
  }

  lemma LastBlockMayEnd(costs: seq<real>, pc: nat, k: nat, f: nat)
    requires f <= |costs| && 0 < k
    ensures MayEnd(costs, pc, k, f, |costs|)
  {
    assert 0 <= (k - 1) * pc;
  }

  /** A chunk that may end now and could not before ends now and nowhere else. */
  lemma EndIsUnique(costs: seq<real>, pc: nat, k: nat, f: nat, b: nat, end: nat)
    requires 0 < k && f < b <= |costs| && MayEnd(costs, pc, k, f, b)
    requires MayNotEnd(costs, pc, k, f, b - 1)
    ensures IsEnd(costs, pc, k, f, end) <==> end == b
  {
  }

  lemma {:induction false} RuleRun(costs: seq<real>, pc: nat, nchunks: nat, s: CutState, cuts: seq<nat>)
    requires RuleState(costs, pc, nchunks, s)
    ensures CutsFrom(costs, pc, nchunks, s) == Some(cuts) <==> RuleFrom(costs, pc, nchunks - s.cidx, s.first, cuts)
    decreases |costs| - s.block
  {
    if s.block < |costs| && s.cidx < nchunks {
      var next := NextCut(costs, pc, nchunks, s);
      EndsIffMay(costs, pc, nchunks, s);
      RuleNext(costs, pc, nchunks, s);
      if EndsChunk(costs, pc, nchunks, s) {
        if |cuts| > 0 {
          EndIsUnique(costs, pc, nchunks - s.cidx, s.first, s.block + 1, cuts[0]);
          RuleRun(costs, pc, nchunks, next, cuts[1..]);
          HeadAndTail(cuts, s.block + 1, CutsFrom(costs, pc, nchunks, next));
        }
      } else {
        RuleRun(costs, pc, nchunks, next, cuts);
      }
    }
  }

  lemma HeadAndTail(cuts: seq<nat>, head: nat, rest: Option<seq<nat>>)
    requires |cuts| > 0
    ensures rest.Some? ==> ([head] + rest.value == cuts <==> cuts[0] == head && rest.value == cuts[1..])
  {
    if rest.Some? {
      assert ([head] + rest.value)[1..] == rest.value;
      assert cuts == [cuts[0]] + cuts[1..];
    }
  }

  /** Chunk c of the cuts from block f on, of which there are at most k, ends where it should. */
  ghost predicate EndsRight(costs: seq<real>, pc: nat, k: nat, f: nat, cuts: seq<nat>, c: nat)
    requires c < |cuts| <= k
  {
    IsEnd(costs, pc, k - c, if c == 0 then f else cuts[c - 1], cuts[c])
  }

  ghost predicate AllEndRight(costs: seq<real>, pc: nat, k: nat, f: nat, cuts: seq<nat>)
  {
    |cuts| <= k && forall c :: 0 <= c < |cuts| ==> EndsRight(costs, pc, k, f, cuts, c)
  }

  lemma AllEndRightStep(costs: seq<real>, pc: nat, k: nat, f: nat, cuts: seq<nat>)
    requires 0 < |cuts| && 0 < k
    ensures AllEndRight(costs, pc, k, f, cuts)
            <==> IsEnd(costs, pc, k, f, cuts[0]) && AllEndRight(costs, pc, k - 1, cuts[0], cuts[1..])
  {
    var head, rest, later: nat := cuts[0], cuts[1..], k - 1;
    if |cuts| <= k {
      forall c | 0 < c < |cuts|
        ensures EndsRight(costs, pc, k, f, cuts, c) <==> EndsRight(costs, pc, later, head, rest, c - 1)
      {
      }
      if AllEndRight(costs, pc, k, f, cuts) {
        assert EndsRight(costs, pc, k, f, cuts, 0);
        forall c | 0 <= c < |rest| ensures EndsRight(costs, pc, later, head, rest, c) {
          assert EndsRight(costs, pc, k, f, cuts, c + 1);
        }
      }
    }
  }

  /** The recursive form of the rule speaks of every chunk. */
  lemma {:induction false} RuleFromMeans(costs: seq<real>, pc: nat, k: nat, f: nat, cuts: seq<nat>)
    ensures RuleFrom(costs, pc, k, f, cuts)
            <==> AllEndRight(costs, pc, k, f, cuts) && (if |cuts| == 0 then f else cuts[|cuts| - 1]) == |costs|
  {
    if |cuts| > 0 && k > 0 {
      AllEndRightStep(costs, pc, k, f, cuts);
      RuleFromMeans(costs, pc, k - 1, cuts[0], cuts[1..]);
    }
  }

  /**
   Main result: for any costs and any number of chunks the chunker ends with exactly the cuts of the rule, and with none
   when there are no such cuts.
   */
  lemma CutsExactly(costs: seq<real>, nranks: nat, nchunks: nat, cuts: seq<nat>)
    requires 0 < nchunks
    ensures Cuts(costs, nranks, nchunks) == Some(cuts) <==> AreRuleCuts(costs, nranks / nchunks, nchunks, cuts)
  {
    var pc := nranks / nchunks;
    assert costs[0..|costs|] == costs;
    RuleRun(costs, pc, nchunks, FirstCut(costs, nchunks), cuts);
    RuleFromMeans(costs, pc, nchunks, 0, cuts);
    if |cuts| <= nchunks {
      forall c | 0 <= c < |cuts|
        ensures EndsRight(costs, pc, nchunks, 0, cuts, c)
                <==> IsEnd(costs, pc, nchunks - c, FirstBlock(cuts, c), cuts[c])
      {
      }
    }
  }
}
