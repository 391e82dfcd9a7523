/**
 Chunked CDP (lb/src/lb_chunkwise.h): blocks and ranks are cut into nchunks aligned chunks, each placed on its own;
 in parallel, one process per chunk, the pieces being gathered afterwards.
 */
module Chunkwise {
  import opened Sums
  import opened Placement
  import opened Contiguous

  const EPSILON := 0.000000000001

  // ----- cutting the blocks -----

  /** The loop variables of ComputeChunks; first is the first block of the current chunk. */
  datatype CutState = CutState(block: nat, cidx: nat, first: nat, cost: real, rem: real, target: real)

  /** Whether the current chunk ends after block s.block. */
  predicate EndsChunk(costs: seq<real>, pc: nat, nchunks: nat, s: CutState)
    requires s.block < |costs| && s.cidx < nchunks
  {
    var blocksRem: int, chunksRem := |costs| - s.block - 1, nchunks - s.cidx - 1;
    || (s.cost + costs[s.block] >= s.target - EPSILON && s.block - s.first + 1 >= pc)
    || blocksRem <= Product(chunksRem, pc)
  }

  /** The target of each remaining chunk; the source's quotient by 0 after the last chunk is never read. */
  function Share(rem: real, chunksRem: nat): real
  {
    if chunksRem > 0 then rem / chunksRem as real else 0.0
  }

  function NextCut(costs: seq<real>, pc: nat, nchunks: nat, s: CutState): CutState
    requires s.block < |costs| && s.cidx < nchunks
  {
    var cost := s.cost + costs[s.block];
    var chunksRem := nchunks - s.cidx - 1;
    if EndsChunk(costs, pc, nchunks, s) then
      CutState(s.block + 1, s.cidx + 1, s.block + 1, 0.0, s.rem - cost, Share(s.rem - cost, chunksRem))
    else
      s.(block := s.block + 1, cost := cost)
  }

  /** The ends of the chunks from the current one on; None when a block is left after the last chunk was closed. */
  function CutsFrom(costs: seq<real>, pc: nat, nchunks: nat, s: CutState): Option<seq<nat>>
    requires s.block <= |costs|
    decreases |costs| - s.block
  {
    if s.block == |costs| then Some([])
    else if s.cidx >= nchunks then None
    else
      var rest := CutsFrom(costs, pc, nchunks, NextCut(costs, pc, nchunks, s));
      if rest.None? then None
      else if EndsChunk(costs, pc, nchunks, s) then Some([s.block + 1] + rest.value)
      else rest
  }

  function FirstCut(costs: seq<real>, nchunks: nat): CutState
    requires 0 < nchunks
  {
    CutState(0, 0, 0, 0.0, Sum(costs), Sum(costs) / nchunks as real)
  }

  /** The ends of all chunks. */
  function Cuts(costs: seq<real>, nranks: nat, nchunks: nat): Option<seq<nat>>
    requires 0 < nchunks
  {
    CutsFrom(costs, nranks / nchunks, nchunks, FirstCut(costs, nchunks))
  }

  /** Consecutive ends from block `first`, each chunk with at least pc blocks, the last one ending at n. */
  ghost predicate GoodCuts(cuts: seq<nat>, first: nat, pc: nat, n: nat)
  {
    if |cuts| == 0 then first == n
    else cuts[0] >= first + pc && GoodCuts(cuts[1..], cuts[0], pc, n)
  }

  /**
   Between iterations: enough blocks are left for one per remaining rank, and the share of the last chunk is all that
   remains.
   */
  ghost predicate CutInvariant(costs: seq<real>, pc: nat, nchunks: nat, s: CutState)
  {
    && pc > 0 && s.first <= s.block <= |costs|
    && Nonnegative(costs)
    && s.cost == RangeSum(costs, s.first, s.block) && s.rem == RangeSum(costs, s.first, |costs|)
    && if s.cidx == nchunks then s.block == s.first == |costs|
       else
         && s.cidx < nchunks
         && |costs| - s.block > Product(nchunks - s.cidx - 1, pc)
         && |costs| - s.first >= Product(nchunks - s.cidx, pc)
         && Times(nchunks - s.cidx, s.target) == s.rem
  }

  lemma SuffixAtLeastLast(costs: seq<real>, a: nat)
    requires a < |costs| && Nonnegative(costs)
    ensures RangeSum(costs, a, |costs|) >= costs[|costs| - 1]
  {
    RangeSplit(costs, a, |costs| - 1, |costs|);
    SumNonnegative(costs[a..|costs| - 1]);
    assert costs[|costs| - 1..|costs|] == [costs[|costs| - 1]];
    SumSingleton(costs[|costs| - 1]);
  }

  lemma RangeStep(costs: seq<real>, a: nat, b: nat)
    requires a <= b < |costs|
    ensures RangeSum(costs, a, b + 1) == RangeSum(costs, a, b) + costs[b]
  {
    assert costs[a..b + 1][..b - a] == costs[a..b];
  }

  lemma CutStep(costs: seq<real>, pc: nat, nchunks: nat, s: CutState)
    requires CutInvariant(costs, pc, nchunks, s) && s.block < |costs| && s.cidx < nchunks
    requires costs[|costs| - 1] > EPSILON || s.cidx < nchunks - 1
    ensures CutInvariant(costs, pc, nchunks, NextCut(costs, pc, nchunks, s))
    ensures EndsChunk(costs, pc, nchunks, s) ==> s.block + 1 >= s.first + pc
  {
    var chunksRem := nchunks - s.cidx - 1;
    var b := s.block;
    RangeStep(costs, s.first, b);
    RangeSplit(costs, s.first, b + 1, |costs|);
    assert RangeSum(costs, b + 1, b + 1) == 0.0;
    if chunksRem == 0 {
      SmallTimes(s.target);
      assert s.target == s.rem;
      if b + 1 < |costs| {
        SuffixAtLeastLast(costs, b + 1);
        assert !EndsChunk(costs, pc, nchunks, s);
      }
    } else if EndsChunk(costs, pc, nchunks, s) {
      TimesOfQuotient(chunksRem, s.rem - (s.cost + costs[b]));
    }
  }

  lemma {:induction false} CutsRun(costs: seq<real>, pc: nat, nchunks: nat, s: CutState) returns (cuts: seq<nat>)
    requires CutInvariant(costs, pc, nchunks, s)
    requires |costs| > 0 && costs[|costs| - 1] > EPSILON
    ensures CutsFrom(costs, pc, nchunks, s) == Some(cuts)
    ensures |cuts| == nchunks - s.cidx && GoodCuts(cuts, s.first, pc, |costs|)
    decreases |costs| - s.block
  {
    if s.block == |costs| {
      cuts := [];
    } else {
      CutStep(costs, pc, nchunks, s);
      var rest := CutsRun(costs, pc, nchunks, NextCut(costs, pc, nchunks, s));
      if EndsChunk(costs, pc, nchunks, s) {
        cuts := [s.block + 1] + rest;
        assert cuts[1..] == rest;
      } else {
        cuts := rest;
      }
    }
  }

  lemma FirstInvariant(costs: seq<real>, nranks: nat, nchunks: nat)
    requires 0 < nchunks && 0 < nranks <= |costs| && nranks % nchunks == 0 && Nonnegative(costs)
    ensures CutInvariant(costs, nranks / nchunks, nchunks, FirstCut(costs, nchunks))
    ensures Product(nchunks, nranks / nchunks) == nranks
  {
    var pc := nranks / nchunks;
    ProductIs(nchunks, pc);
    assert nranks == nchunks * pc;
    TimesOfQuotient(nchunks, Sum(costs));
    assert costs[0..|costs|] == costs;
  }

  /** Main result on the chunker: it closes exactly nchunks chunks, covering all blocks, with a block for every rank. */
  lemma CutsAreGood(costs: seq<real>, nranks: nat, nchunks: nat)
    requires 0 < nchunks && 0 < nranks <= |costs| && nranks % nchunks == 0
    requires Nonnegative(costs) && costs[|costs| - 1] > EPSILON
    ensures Cuts(costs, nranks, nchunks).Some?
    ensures |Cuts(costs, nranks, nchunks).value| == nchunks
    ensures GoodCuts(Cuts(costs, nranks, nchunks).value, 0, nranks / nchunks, |costs|)
  {
    FirstInvariant(costs, nranks, nchunks);
    var cuts := CutsRun(costs, nranks / nchunks, nchunks, FirstCut(costs, nchunks));
  }

  /** In the last chunk, a free last block makes the share look reached one block too early. */
  lemma {:induction false} FreeLastBlockOverruns(costs: seq<real>, pc: nat, nchunks: nat, s: CutState)
    requires CutInvariant(costs, pc, nchunks, s) && s.cidx == nchunks - 1
    requires s.block + 2 <= |costs| && s.first + pc < |costs|
    requires costs[|costs| - 1] <= EPSILON
    ensures CutsFrom(costs, pc, nchunks, s).None?
    decreases |costs| - s.block
  {
    var b := s.block;
    SmallTimes(s.target);
    RangeStep(costs, s.first, b);
    RangeSplit(costs, s.first, b + 1, |costs|);
    assert b + 2 == |costs| ==> costs[b + 1..|costs|] == [costs[b + 1]];
    SumSingleton(costs[b + 1]);
    if b + 2 < |costs| && !EndsChunk(costs, pc, nchunks, s) {
      FreeLastBlockOverruns(costs, pc, nchunks, NextCut(costs, pc, nchunks, s));
    }
  }

  /** A last chunk with just one block per rank cannot end early. */
  lemma {:induction false} TightLastChunk(costs: seq<real>, pc: nat, nchunks: nat, s: CutState)
    requires CutInvariant(costs, pc, nchunks, s) && s.cidx == nchunks - 1
    requires s.block < |costs| && s.first + pc == |costs|
    ensures CutsFrom(costs, pc, nchunks, s) == Some([|costs|])
    decreases |costs| - s.block
  {
    if s.block + 1 < |costs| {
      RangeStep(costs, s.first, s.block);
      assert !EndsChunk(costs, pc, nchunks, s);
      TightLastChunk(costs, pc, nchunks, NextCut(costs, pc, nchunks, s));
    } else {
      assert EndsChunk(costs, pc, nchunks, s);
      var rest := CutsFrom(costs, pc, nchunks, NextCut(costs, pc, nchunks, s));
      assert [s.block + 1] + rest.value == [|costs|];
    }
  }

  /** Where the last chunk starts: the loop up to the end of the last but one. */
  function LastChunkStart(costs: seq<real>, pc: nat, nchunks: nat, s: CutState): nat
    requires s.block <= |costs|
    decreases |costs| - s.block
  {
    if s.block == |costs| || s.cidx + 1 >= nchunks then s.first
    else LastChunkStart(costs, pc, nchunks, NextCut(costs, pc, nchunks, s))
  }

  /** With a free last block, the run succeeds exactly when the last chunk has no block to spare. */
  lemma {:induction false} LastChunkDecides(costs: seq<real>, pc: nat, nchunks: nat, s: CutState)
    requires CutInvariant(costs, pc, nchunks, s) && s.cidx < nchunks && s.block < |costs|
    requires (s.cidx == nchunks - 1 ==> s.block == s.first) && costs[|costs| - 1] <= EPSILON
    ensures var cuts := CutsFrom(costs, pc, nchunks, s);
            && (cuts.Some? <==> LastChunkStart(costs, pc, nchunks, s) + pc == |costs|)
            && (cuts.Some? ==> |cuts.value| == nchunks - s.cidx && GoodCuts(cuts.value, s.first, pc, |costs|))
    decreases |costs| - s.block
  {
    if s.cidx == nchunks - 1 {
      if s.first + pc == |costs| {
        TightLastChunk(costs, pc, nchunks, s);
        assert [|costs|][1..] == [];
      } else {
        FreeLastBlockOverruns(costs, pc, nchunks, s);
      }
    } else {
      CutStep(costs, pc, nchunks, s);
      var next := NextCut(costs, pc, nchunks, s);
      LastChunkDecides(costs, pc, nchunks, next);
      var rest := CutsFrom(costs, pc, nchunks, next);
      if rest.Some? && EndsChunk(costs, pc, nchunks, s) {
        assert ([s.block + 1] + rest.value)[1..] == rest.value;
      }
    }
  }

  /**
   Main result: the chunk index never runs past the last chunk if and only if the last block costs more than EPSILON or
   the chunks before the last one leave it just one block per rank; and then the chunks are good.
   */
  lemma ChunkerExactly(costs: seq<real>, nranks: nat, nchunks: nat)
    requires 0 < nchunks && 0 < nranks <= |costs| && nranks % nchunks == 0 && Nonnegative(costs)
    ensures var pc, cuts := nranks / nchunks, Cuts(costs, nranks, nchunks);
            && (cuts.Some? <==> costs[|costs| - 1] > EPSILON
                                || LastChunkStart(costs, pc, nchunks, FirstCut(costs, nchunks)) + pc == |costs|)
            && (cuts.Some? ==> |cuts.value| == nchunks && GoodCuts(cuts.value, 0, pc, |costs|))
  {
    if costs[|costs| - 1] > EPSILON {
      CutsAreGood(costs, nranks, nchunks);
    } else {
      FirstInvariant(costs, nranks, nchunks);
      LastChunkDecides(costs, nranks / nchunks, nchunks, FirstCut(costs, nchunks));
    }
  }

  // ----- a free last block, from the input alone -----

  /** A single chunk over a costly and a free block: the first block closes it, the second has no chunk. */
  lemma FreeBlockFails()
    ensures Cuts([1.0, 0.0], 1, 1).None?
  {
    var costs := [1.0, 0.0];
    assert costs[..1] == [1.0] && Sum(costs) == 1.0 by {
      SumSingleton(1.0);
    }
    var s := NextCut(costs, 1, 1, FirstCut(costs, 1));
    assert EndsChunk(costs, 1, 1, FirstCut(costs, 1)) && s.block == 1 && s.cidx == 1;
    assert CutsFrom(costs, 1, 1, s).None?;
  }

  /** With one block per rank every chunk ends as soon as it has its blocks. */
  lemma {:induction false} TightChunks(costs: seq<real>, pc: nat, nchunks: nat, s: CutState)
    requires CutInvariant(costs, pc, nchunks, s) && s.cidx < nchunks && s.block < s.first + pc
    requires |costs| - s.first == Product(nchunks - s.cidx, pc)
    ensures LastChunkStart(costs, pc, nchunks, s) + pc == |costs|
    decreases |costs| - s.block
  {
    if s.cidx == nchunks - 1 {
      assert Product(1, pc) == Product(0, pc) + pc;
    } else {
      CutStep(costs, pc, nchunks, s);
      TightChunks(costs, pc, nchunks, NextCut(costs, pc, nchunks, s));
    }
  }

  lemma RangeAscends(costs: seq<real>, a: nat, b: nat, c: nat)
    requires Nonnegative(costs) && a <= b <= c <= |costs|
    ensures RangeSum(costs, a, b) <= RangeSum(costs, a, c)
  {
    RangeSplit(costs, a, b, c);
    SumNonnegative(costs[b..c]);
  }

  /**
   The last but one chunk leaves just pc blocks exactly when nothing can end it earlier: it is about to take the last
   block it may hold, it has fewer than pc blocks before that one, or without that one it stays below its share.
   */
  lemma {:induction false} LastButOne(costs: seq<real>, pc: nat, nchunks: nat, s: CutState)
    requires CutInvariant(costs, pc, nchunks, s) && s.cidx + 2 == nchunks && s.block < |costs|
    requires s.block < |costs| - pc && s.first + pc <= |costs| - pc
    ensures LastChunkStart(costs, pc, nchunks, s) + pc == |costs|
            <==> s.block == |costs| - pc - 1 || |costs| - pc - 1 < s.first + pc
                 || RangeSum(costs, s.first, |costs| - pc - 1) < s.target - EPSILON
    decreases |costs| - s.block
  {
    var last := |costs| - pc - 1;
    assert Product(1, pc) == Product(0, pc) + pc;
    RangeStep(costs, s.first, s.block);
    CutStep(costs, pc, nchunks, s);
    var next := NextCut(costs, pc, nchunks, s);
    if EndsChunk(costs, pc, nchunks, s) {
      assert LastChunkStart(costs, pc, nchunks, s) == s.block + 1;
      if s.block + 1 <= last {
        RangeAscends(costs, s.first, s.block + 1, last);
      }
    } else {
      LastButOne(costs, pc, nchunks, next);
    }
  }

  lemma OneChunk(costs: seq<real>, nranks: nat)
    requires 0 < nranks <= |costs| && Nonnegative(costs) && costs[|costs| - 1] <= EPSILON
    ensures Cuts(costs, nranks, 1).Some? <==> |costs| == nranks
  {
    ChunkerExactly(costs, nranks, 1);
    assert LastChunkStart(costs, nranks, 1, FirstCut(costs, 1)) == 0;
  }

  /** The blocks before the last pc, less one, stay below half of the total. */
  predicate HalfComesLate(costs: seq<real>, pc: nat)
    requires pc < |costs|
  {
    Sum(costs[..|costs| - pc - 1]) < Sum(costs) / 2.0 - EPSILON
  }

  lemma TwoChunks(costs: seq<real>, nranks: nat, pc: nat)
    requires 0 < nranks < |costs| && nranks == 2 * pc && Nonnegative(costs) && costs[|costs| - 1] <= EPSILON
    ensures Cuts(costs, nranks, 2).Some? <==> HalfComesLate(costs, pc)
  {
    assert nranks / 2 == pc;
    ChunkerExactly(costs, nranks, 2);
    FirstInvariant(costs, nranks, 2);
    LastButOne(costs, pc, 2, FirstCut(costs, 2));
  }

  lemma TightCuts(costs: seq<real>, nchunks: nat)
    requires 0 < nchunks && 0 < |costs| && |costs| % nchunks == 0 && Nonnegative(costs)
    ensures Cuts(costs, |costs|, nchunks).Some?
  {
    ChunkerExactly(costs, |costs|, nchunks);
    FirstInvariant(costs, |costs|, nchunks);
    TightChunks(costs, |costs| / nchunks, nchunks, FirstCut(costs, nchunks));
  }

  /**
   When a caller can hand over a free last block: always with one block per rank; with a single chunk only then; with
   two chunks also when the blocks up to one before the last pc stay below half of the total.
   */
  lemma FreeLastBlockExactly(costs: seq<real>, nranks: nat, nchunks: nat)
    requires 0 < nchunks && 0 < nranks <= |costs| && nranks % nchunks == 0 && Nonnegative(costs)
    requires costs[|costs| - 1] <= EPSILON
    ensures |costs| == nranks ==> Cuts(costs, nranks, nchunks).Some?
    ensures nchunks == 1 ==> (Cuts(costs, nranks, nchunks).Some? <==> |costs| == nranks)
    ensures nchunks == 2 ==>
              (Cuts(costs, nranks, nchunks).Some? <==> |costs| == nranks || HalfComesLate(costs, nranks / 2))
  {
    if |costs| == nranks {
      TightCuts(costs, nchunks);
    } else if nchunks == 1 {
      OneChunk(costs, nranks);
    } else if nchunks == 2 {
      TwoChunks(costs, nranks, nranks / 2);
    }
  }

  // ----- the chunk records -----

  /** WorkloadChunk: blocks [blockFirst, blockLast) go to ranks [rankFirst, rankLast). */
  datatype Chunk = Chunk(blockFirst: nat, blockLast: nat, rankFirst: nat, rankLast: nat, cost: real)
  {
    function NumBlocks(): int { blockLast - blockFirst }
    function NumRanks(): int { rankLast - rankFirst }
  }

  /** What ValidateChunks asserts. */
  predicate Validates(chunks: seq<Chunk>, nblocks: nat, nranks: nat, nchunks: nat)
    requires 0 < nchunks
  {
    && |chunks| == nchunks
    && chunks[0].blockFirst == 0
    && chunks[nchunks - 1].blockLast == nblocks
    && forall c :: 0 <= c < nchunks ==> ChunkValid(chunks, nblocks, nranks / nchunks, c)
  }

  predicate ChunkValid(chunks: seq<Chunk>, nblocks: nat, pc: nat, c: nat)
    requires c < |chunks|
  {
    && chunks[c].blockFirst < nblocks
    && chunks[c].blockFirst < chunks[c].blockLast <= nblocks
    && HasRanks(chunks[c], c, pc)
    && chunks[c].NumBlocks() >= pc
    && (c < |chunks| - 1 ==> chunks[c].blockLast == chunks[c + 1].blockFirst)
  }

  method ValidateChunks(chunks: array<Chunk>, nblocks: nat, nranks: nat, nchunks: nat) returns (valid: bool)
    requires 0 < nchunks
    ensures valid <==> Validates(chunks[..], nblocks, nranks, nchunks)
  {
    if chunks.Length != nchunks {
      return false;
    }
    if chunks[0].blockFirst != 0 || chunks[nchunks - 1].blockLast != nblocks {
      return false;
    }
    var pc := nranks / nchunks;
    for c := 0 to nchunks
      invariant forall c' :: 0 <= c' < c ==> ChunkValid(chunks[..], nblocks, pc, c')
    {
      var chunk := chunks[c];
      ProductIs(c, pc);
      ProductIs(c + 1, pc);
      var fits := chunk.blockFirst < nblocks && chunk.blockFirst < chunk.blockLast <= nblocks;
      var aligned := chunk.rankFirst == c * pc && chunk.rankLast == (c + 1) * pc;
      var enough := chunk.NumBlocks() >= pc;
      var joined := c == nchunks - 1 || chunk.blockLast == chunks[c + 1].blockFirst;
      assert ChunkValid(chunks[..], nblocks, pc, c) <==> fits && aligned && enough && joined;
      if !(fits && aligned && enough && joined) {
        return false;
      }
    }
    return true;
  }

  /** The first block of chunk c. */
  function FirstBlock(cuts: seq<nat>, c: nat): nat
    requires c <= |cuts|
  {
    if c == 0 then 0 else cuts[c - 1]
  }

  /** What the loop adds to the ends found so far. */
  function Prepend(done: seq<nat>, rest: Option<seq<nat>>): Option<seq<nat>>
  {
    match rest
    case None => None
    case Some(v) => Some(done + v)
  }

  predicate HasRanks(chunk: Chunk, c: nat, pc: nat)
  {
    chunk.rankFirst == Product(c, pc) && chunk.rankLast == Product(c + 1, pc)
  }

  /** The chunk vector while the loop runs: `done` are the ends found so far. */
  ghost predicate ChunksSoFar(chunks: seq<Chunk>, done: seq<nat>, pc: nat, nblocks: nat)
  {
    && |done| <= |chunks|
    && (forall c :: 0 <= c < |chunks| ==> HasRanks(chunks[c], c, pc))
    && (forall c :: 0 <= c < |chunks| && c <= |done| ==> chunks[c].blockFirst == FirstBlock(done, c))
    && (forall c :: 0 <= c < |done| ==> chunks[c].blockLast == done[c])
    && (|done| < |chunks| ==> chunks[|chunks| - 1].blockLast == nblocks)
  }

  /** The chunk vector with chunk c closed before block `end`. */
  function Closed(chunks: seq<Chunk>, c: nat, end: nat, cost: real): seq<Chunk>
    requires c < |chunks|
  {
    var cut := chunks[c := chunks[c].(blockLast := end, cost := cost)];
    if c < |chunks| - 1 then cut[c + 1 := cut[c + 1].(blockFirst := end)] else cut
  }

  lemma CloseChunk(chunks: seq<Chunk>, done: seq<nat>, pc: nat, nblocks: nat, end: nat, cost: real)
    requires ChunksSoFar(chunks, done, pc, nblocks) && |done| < |chunks|
    ensures ChunksSoFar(Closed(chunks, |done|, end, cost), done + [end], pc, nblocks)
  {
    var r, done' := Closed(chunks, |done|, end, cost), done + [end];
    forall c | 0 <= c < |r| ensures HasRanks(r[c], c, pc) {
      assert HasRanks(chunks[c], c, pc);
    }
    forall c | 0 <= c < |r| && c <= |done'| ensures r[c].blockFirst == FirstBlock(done', c) {
      assert c <= |done| ==> chunks[c].blockFirst == FirstBlock(done, c);
    }
  }

  /** One iteration, seen from the ends found so far. */
  lemma PrependStep(costs: seq<real>, pc: nat, nchunks: nat, s: CutState, done: seq<nat>)
    requires s.block < |costs| && s.cidx < nchunks
    ensures Prepend(done, CutsFrom(costs, pc, nchunks, s))
            == Prepend(if EndsChunk(costs, pc, nchunks, s) then done + [s.block + 1] else done,
                       CutsFrom(costs, pc, nchunks, NextCut(costs, pc, nchunks, s)))
  {
    var rest := CutsFrom(costs, pc, nchunks, NextCut(costs, pc, nchunks, s));
    if rest.Some? {
      assert done + ([s.block + 1] + rest.value) == done + [s.block + 1] + rest.value;
    }
  }

  lemma PrependNothing(rest: Option<seq<nat>>)
    ensures Prepend([], rest) == rest
  {
    if rest.Some? {
      assert [] + rest.value == rest.value;
    }
  }

  /** The vector with rank ranges filled in, and the two block bounds known beforehand. */
  method InitChunks(pc: nat, nchunks: nat, nblocks: nat) returns (chunks: array<Chunk>)
    requires 0 < nchunks
    ensures fresh(chunks) && chunks.Length == nchunks
    ensures ChunksSoFar(chunks[..], [], pc, nblocks)
  {
    chunks := new Chunk[nchunks](_ => Chunk(0, 0, 0, 0, 0.0));
    for c := 0 to nchunks
      invariant forall c' :: 0 <= c' < nchunks ==> chunks[c'].blockFirst == 0
      invariant forall c' :: 0 <= c' < c ==> HasRanks(chunks[c'], c', pc)
    {
      ProductIs(c, pc);
      ProductIs(c + 1, pc);
      chunks[c] := chunks[c].(rankFirst := c * pc, rankLast := (c + 1) * pc);
    }
    chunks[0] := chunks[0].(blockFirst := 0);
    chunks[nchunks - 1] := chunks[nchunks - 1].(blockLast := nblocks);
  }

  /** Closes chunk c of the vector in place. */
  method CloseInPlace(chunks: array<Chunk>, c: nat, end: nat, cost: real)
    requires c < chunks.Length
    modifies chunks
    ensures chunks[..] == Closed(old(chunks[..]), c, end, cost)
  {
    chunks[c] := chunks[c].(blockLast := end, cost := cost);
    if c < chunks.Length - 1 {
      chunks[c + 1] := chunks[c + 1].(blockFirst := end);
    }
  }

  /** cond1 or cond2 of the source. */
  method BreakConditions(costs: seq<real>, pc: nat, nchunks: nat, s: CutState, cost: real, count: int)
    returns (ends: bool)
    requires s.block < |costs| && s.cidx < nchunks
    requires cost == s.cost + costs[s.block] && count == s.block - s.first + 1
    ensures ends == EndsChunk(costs, pc, nchunks, s)
  {
    var blocksRem := |costs| - s.block - 1;
    var chunksRem := nchunks - s.cidx - 1;
    ProductIs(chunksRem, pc);
    var cond1 := cost >= s.target - EPSILON && count >= pc;
    var cond2 := blocksRem <= chunksRem * pc;
    ends := cond1 || cond2;
  }

  lemma NextAtEnd(costs: seq<real>, pc: nat, nchunks: nat, s: CutState, rem: real, chunksRem: nat)
    requires s.block < |costs| && s.cidx < nchunks && EndsChunk(costs, pc, nchunks, s)
    requires rem == s.rem - (s.cost + costs[s.block]) && chunksRem == nchunks - s.cidx - 1
    ensures NextCut(costs, pc, nchunks, s)
            == CutState(s.block + 1, s.cidx + 1, s.block + 1, 0.0, rem, Share(rem, chunksRem))
  {
  }

  /** Moves on to the next chunk. */
  method EndChunk(costs: seq<real>, ghost pc: nat, chunks: array<Chunk>, ghost done: seq<nat>, s: CutState, cost: real,
                  chunksRem: nat)
    returns (next: CutState)
    requires s.block < |costs| && s.cidx == |done| < chunks.Length && EndsChunk(costs, pc, chunks.Length, s)
    requires cost == s.cost + costs[s.block] && chunksRem == chunks.Length - s.cidx - 1
    requires ChunksSoFar(chunks[..], done, pc, |costs|)
    modifies chunks
    ensures next == NextCut(costs, pc, chunks.Length, s)
    ensures ChunksSoFar(chunks[..], done + [s.block + 1], pc, |costs|)
  {
    CloseChunk(chunks[..], done, pc, |costs|, s.block + 1, cost);
    CloseInPlace(chunks, s.cidx, s.block + 1, cost);
    var rem := s.rem - cost;
    next := CutState(s.block + 1, s.cidx + 1, s.block + 1, 0.0, rem, Share(rem, chunksRem));
    NextAtEnd(costs, pc, chunks.Length, s, rem, chunksRem);
  }

  /** The loop body: block s.block joins the current chunk, which is closed if a condition holds. */
  method CutBlock(costs: seq<real>, pc: nat, chunks: array<Chunk>, ghost done: seq<nat>, s: CutState)
    returns (next: CutState, ghost done': seq<nat>)
    requires s.block < |costs| && s.cidx == |done| < chunks.Length
    requires s.first == FirstBlock(done, s.cidx)
    requires ChunksSoFar(chunks[..], done, pc, |costs|)
    modifies chunks
    ensures next == NextCut(costs, pc, chunks.Length, s)
    ensures done' == if EndsChunk(costs, pc, chunks.Length, s) then done + [s.block + 1] else done
    ensures ChunksSoFar(chunks[..], done', pc, |costs|)
  {
    var cost := s.cost + costs[s.block];
    var chunksRem := chunks.Length - s.cidx - 1;
    assert chunks[..][s.cidx].blockFirst == s.first;
    var count := s.block - chunks[s.cidx].blockFirst + 1;
    var ends := BreakConditions(costs, pc, chunks.Length, s, cost, count);
    if ends {
      next := EndChunk(costs, pc, chunks, done, s, cost, chunksRem);
      done' := done + [s.block + 1];
    } else {
      done' := done;
      next := s.(block := s.block + 1, cost := cost);
    }
  }

  /** The last block always closes a chunk. */
  lemma LastBlockCloses(costs: seq<real>, pc: nat, nchunks: nat, s: CutState)
    requires s.block + 1 == |costs| && s.cidx < nchunks
    ensures NextCut(costs, pc, nchunks, s).first == |costs|
  {
  }

  /** The loop over the blocks, from the initial variables on. */
  method CutLoop(costs: seq<real>, pc: nat, chunks: array<Chunk>, start: CutState)
    returns (ok: bool, ghost cuts: seq<nat>)
    requires start.block == start.cidx == start.first == 0
    requires ChunksSoFar(chunks[..], [], pc, |costs|)
    modifies chunks
    ensures ok <==> CutsFrom(costs, pc, chunks.Length, start).Some?
    ensures ok ==> CutsFrom(costs, pc, chunks.Length, start) == Some(cuts)
    ensures ok ==> ChunksSoFar(chunks[..], cuts, pc, |costs|) && FirstBlock(cuts, |cuts|) == |costs|
  {
    var s := start;
    cuts := [];
    PrependNothing(CutsFrom(costs, pc, chunks.Length, s));
    for block := 0 to |costs|
      invariant s.block == block && s.cidx == |cuts| <= chunks.Length && s.first == FirstBlock(cuts, |cuts|)
      invariant ChunksSoFar(chunks[..], cuts, pc, |costs|)
      invariant CutsFrom(costs, pc, chunks.Length, start) == Prepend(cuts, CutsFrom(costs, pc, chunks.Length, s))
      invariant block == |costs| ==> s.first == |costs|
    {
      if s.cidx >= chunks.Length {
        return false, cuts;
      }
      PrependStep(costs, pc, chunks.Length, s, cuts);
      if block + 1 == |costs| {
        LastBlockCloses(costs, pc, chunks.Length, s);
      }
      s, cuts := CutBlock(costs, pc, chunks, cuts, s);
    }
    assert cuts + [] == cuts;
    return true, cuts;
  }

  /** false stands for the abort on indivisible ranks and for running past the last chunk. */
  method ComputeChunks(costs: seq<real>, nranks: nat, nchunks: nat)
    returns (ok: bool, chunks: array<Chunk>, ghost cuts: seq<nat>)
    requires 0 < nchunks
    ensures fresh(chunks) && chunks.Length == nchunks
    ensures ok <==> nranks % nchunks == 0 && Cuts(costs, nranks, nchunks).Some?
    ensures ok ==> Cuts(costs, nranks, nchunks) == Some(cuts)
    ensures ok ==> ChunksSoFar(chunks[..], cuts, nranks / nchunks, |costs|) && FirstBlock(cuts, |cuts|) == |costs|
  {
    cuts := [];
    var pc := nranks / nchunks;
    chunks := InitChunks(pc, nchunks, |costs|);
    if nranks % nchunks != 0 {
      return false, chunks, cuts;
    }
    var total := Accumulate(costs);
    ok, cuts := CutLoop(costs, pc, chunks, CutState(0, 0, 0, 0.0, total, total / nchunks as real));
  }
}
