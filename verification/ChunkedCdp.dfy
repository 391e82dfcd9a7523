/**
 Placing the chunks (lb/src/lb_chunkwise.h): serially, and with one process per chunk followed by MPI_Allgatherv
 (section 5.7 of MPI-3.1).
 */
module ChunkedCdp {
  import opened Sums
  import opened Placement
  import opened ContigImproved
  import opened Chunkwise

  /** A policy as a function of costs and number of ranks; None where it aborts. */
  type Policy = (seq<real>, nat) -> Option<seq<int>>

  /** The policy the chunks are placed with. */
  function CdpPolicy(): Policy
  {
    (costs: seq<real>, nranks: nat) => if nranks > 0 then Improved(costs, nranks) else None
  }

  predicate PolicyAt(place: Policy, costs: seq<real>, nranks: nat)
  {
    nranks > 0 ==> place(costs, nranks) == Improved(costs, nranks)
  }

  ghost predicate IsCdp(place: Policy)
  {
    forall costs, nranks :: PolicyAt(place, costs, nranks)
  }

  lemma CdpPolicyIsCdp()
    ensures IsCdp(CdpPolicy())
  {
  }

  /** Each chunk is non-empty, within the blocks, and has a block for each of its pc ranks. */
  ghost predicate CutsInRange(cuts: seq<nat>, pc: nat, n: nat)
  {
    pc > 0 && forall c :: 0 <= c < |cuts| ==> ChunkInRange(cuts, c, pc, n)
  }

  predicate ChunkInRange(cuts: seq<nat>, c: nat, pc: nat, n: nat)
    requires c < |cuts|
  {
    FirstBlock(cuts, c) + pc <= cuts[c] <= n
  }

  function Shift(ranks: seq<int>, offset: int): (r: seq<int>)
    ensures |r| == |ranks| && forall i :: 0 <= i < |ranks| ==> r[i] == offset + ranks[i]
  {
    seq(|ranks|, i requires 0 <= i < |ranks| => offset + ranks[i])
  }

  function ChunkCosts(costs: seq<real>, cuts: seq<nat>, c: nat): seq<real>
    requires c < |cuts| && FirstBlock(cuts, c) <= cuts[c] <= |costs|
  {
    costs[FirstBlock(cuts, c)..cuts[c]]
  }

  /** The ranks of the blocks of chunk c. */
  function Piece(place: Policy, costs: seq<real>, cuts: seq<nat>, pc: nat, c: nat): Option<seq<int>>
    requires c < |cuts| && ChunkInRange(cuts, c, pc, |costs|)
  {
    match place(ChunkCosts(costs, cuts, c), pc)
    case None => None
    case Some(p) => if |p| == cuts[c] - FirstBlock(cuts, c) then Some(Shift(p, Product(c, pc))) else None
  }

  /** The ranks of all blocks of the first k chunks: what the serial loop has written after k chunks. */
  ghost function Pieces(place: Policy, costs: seq<real>, cuts: seq<nat>, pc: nat, k: nat): Option<seq<int>>
    requires CutsInRange(cuts, pc, |costs|) && k <= |cuts|
  {
    if k == 0 then Some([])
    else
      var before, last := Pieces(place, costs, cuts, pc, k - 1), Piece(place, costs, cuts, pc, k - 1);
      if before.Some? && last.Some? then Some(before.value + last.value) else None
  }

  lemma {:induction false} NoneStays(place: Policy, costs: seq<real>, cuts: seq<nat>, pc: nat, k: nat, m: nat)
    requires CutsInRange(cuts, pc, |costs|) && k <= m <= |cuts|
    requires Pieces(place, costs, cuts, pc, k).None?
    ensures Pieces(place, costs, cuts, pc, m).None?
    decreases m
  {
    if k < m {
      NoneStays(place, costs, cuts, pc, k, m - 1);
    }
  }

  // ----- the chunker's cuts pass validation -----

  lemma {:induction false} GoodCutsInRange(cuts: seq<nat>, first: nat, pc: nat, n: nat)
    requires pc > 0 && GoodCuts(cuts, first, pc, n)
    ensures first <= n
    ensures forall c :: 0 <= c < |cuts| ==> (if c == 0 then first else cuts[c - 1]) + pc <= cuts[c] <= n
    ensures |cuts| > 0 ==> cuts[|cuts| - 1] == n
  {
    if |cuts| > 0 {
      GoodCutsInRange(cuts[1..], cuts[0], pc, n);
      forall c | 0 <= c < |cuts| ensures (if c == 0 then first else cuts[c - 1]) + pc <= cuts[c] <= n {
        if c > 0 {
          assert cuts[1..][c - 1] == cuts[c];
          assert c > 1 ==> cuts[1..][c - 2] == cuts[c - 1];
        }
      }
    }
  }

  /** Records that describe ranges covering all blocks satisfy every assertion of ValidateChunks. */
  lemma RangesValidate(chunks: seq<Chunk>, cuts: seq<nat>, nblocks: nat, nranks: nat, nchunks: nat)
    requires 0 < nchunks
    requires |chunks| == |cuts| == nchunks && ChunksSoFar(chunks, cuts, nranks / nchunks, nblocks)
    requires CutsInRange(cuts, nranks / nchunks, nblocks) && FirstBlock(cuts, nchunks) == nblocks
    ensures Validates(chunks, nblocks, nranks, nchunks)
  {
    var pc := nranks / nchunks;
    forall c | 0 <= c < nchunks ensures ChunkValid(chunks, nblocks, pc, c) {
      assert HasRanks(chunks[c], c, pc) && ChunkInRange(cuts, c, pc, nblocks);
      assert chunks[c].blockFirst == FirstBlock(cuts, c) && chunks[c].blockLast == cuts[c];
    }
  }

  lemma GoodCutsCover(cuts: seq<nat>, pc: nat, nblocks: nat)
    requires pc > 0 && GoodCuts(cuts, 0, pc, nblocks)
    ensures CutsInRange(cuts, pc, nblocks) && FirstBlock(cuts, |cuts|) == nblocks
  {
    GoodCutsInRange(cuts, 0, pc, nblocks);
  }

  /** So the records of good cuts do. */
  lemma GoodCutsValidate(chunks: seq<Chunk>, cuts: seq<nat>, nblocks: nat, nranks: nat, nchunks: nat)
    requires 0 < nchunks && 0 < nranks / nchunks
    requires |chunks| == |cuts| == nchunks && ChunksSoFar(chunks, cuts, nranks / nchunks, nblocks)
    requires GoodCuts(cuts, 0, nranks / nchunks, nblocks)
    ensures Validates(chunks, nblocks, nranks, nchunks)
  {
    GoodCutsCover(cuts, nranks / nchunks, nblocks);
    RangesValidate(chunks, cuts, nblocks, nranks, nchunks);
  }

  lemma MissingCutFails(chunks: seq<Chunk>, cuts: seq<nat>, nblocks: nat, pc: nat)
    requires |cuts| < |chunks| && ChunksSoFar(chunks, cuts, pc, nblocks) && FirstBlock(cuts, |cuts|) == nblocks
    ensures !ChunkValid(chunks, nblocks, pc, |cuts|)
  {
  }

  /** Conversely, records that pass have a cut for every chunk. */
  lemma ValidatedCuts(chunks: seq<Chunk>, cuts: seq<nat>, nblocks: nat, nranks: nat, nchunks: nat)
    requires 0 < nchunks && 0 < nranks / nchunks
    requires |chunks| == nchunks && ChunksSoFar(chunks, cuts, nranks / nchunks, nblocks)
               && FirstBlock(cuts, |cuts|) == nblocks
    requires Validates(chunks, nblocks, nranks, nchunks)
    ensures |cuts| == nchunks && CutsInRange(cuts, nranks / nchunks, nblocks)
  {
    var pc := nranks / nchunks;
    if |cuts| < nchunks {
      MissingCutFails(chunks, cuts, nblocks, pc);
    } else {
      forall c | 0 <= c < nchunks ensures ChunkInRange(cuts, c, pc, nblocks) {
        assert ChunkValid(chunks, nblocks, pc, c);
      }
    }
  }

  lemma RanksPerChunk(nranks: nat, nchunks: nat)
    requires 0 < nchunks && 0 < nranks && nranks % nchunks == 0
    ensures nranks / nchunks > 0 && Product(nchunks, nranks / nchunks) == nranks
  {
    ProductIs(nchunks, nranks / nchunks);
  }

  // ----- the serial policy -----

  /** Moves a chunk's placement from ranks 0.. to the chunk's own ranks. */
  method OffsetRanks(piece: array<int>, rankFirst: int)
    modifies piece
    ensures piece[..] == Shift(old(piece[..]), rankFirst)
  {
    for i := 0 to piece.Length
      invariant forall k :: 0 <= k < i ==> piece[k] == rankFirst + old(piece[k])
      invariant forall k :: i <= k < piece.Length ==> piece[k] == old(piece[k])
    {
      piece[i] := rankFirst + piece[i];
    }
  }

  /** The chunk record says what the cuts say about chunk c. */
  ghost predicate Describes(chunk: Chunk, cuts: seq<nat>, pc: nat, c: nat)
    requires c < |cuts|
  {
    chunk.blockFirst == FirstBlock(cuts, c) && chunk.blockLast == cuts[c] && HasRanks(chunk, c, pc)
  }

  ghost predicate AllDescribed(chunks: seq<Chunk>, cuts: seq<nat>, pc: nat)
  {
    |chunks| == |cuts| && forall c :: 0 <= c < |cuts| ==> Describes(chunks[c], cuts, pc, c)
  }

  /** The per-chunk work, common to the serial and the parallel policy. */
  method PlaceChunk(costs: seq<real>, chunk: Chunk, ghost place: Policy, ghost cuts: seq<nat>, ghost c: nat,
                    ghost pc: nat)
    returns (ok: bool, piece: array<int>)
    requires Nonnegative(costs) && 0 < pc && c < |cuts| && ChunkInRange(cuts, c, pc, |costs|) && IsCdp(place)
    requires Describes(chunk, cuts, pc, c)
    ensures fresh(piece)
    ensures ok <==> Piece(place, costs, cuts, pc, c).Some?
    ensures ok ==> piece[..] == Piece(place, costs, cuts, pc, c).value
  {
    var chunkCosts := costs[chunk.blockFirst..chunk.blockLast];
    assert chunkCosts == ChunkCosts(costs, cuts, c);
    assert chunk.NumRanks() == pc;
    assert PolicyAt(place, chunkCosts, pc);
    piece := new int[chunk.NumBlocks()](_ => -1);
    ok := AssignBlocksContigImproved(chunkCosts, piece, chunk.NumRanks());
    ImprovedLength(chunkCosts, pc);
    if ok {
      OffsetRanks(piece, chunk.rankFirst);
    }
  }

  /** Copies a piece into the rank list at an offset. */
  method CopyPiece(piece: array<int>, ranklist: array<int>, at: nat)
    requires piece != ranklist && at + piece.Length <= ranklist.Length
    modifies ranklist
    ensures ranklist[..at + piece.Length] == old(ranklist[..at]) + piece[..]
  {
    for i := 0 to piece.Length
      invariant forall k :: 0 <= k < at ==> ranklist[k] == old(ranklist[k])
      invariant forall k :: 0 <= k < i ==> ranklist[at + k] == piece[k]
    {
      ranklist[at + i] := piece[i];
    }
  }

  /** The body of the loop over the chunks. */
  method PlaceAndCopy(costs: seq<real>, ranklist: array<int>, chunk: Chunk, ghost place: Policy, ghost cuts: seq<nat>,
                      ghost c: nat, ghost pc: nat)
    returns (placed: bool)
    requires Nonnegative(costs) && ranklist.Length == |costs| && IsCdp(place)
    requires CutsInRange(cuts, pc, |costs|) && c < |cuts|
    requires Describes(chunk, cuts, pc, c)
    requires FirstBlock(cuts, c) <= ranklist.Length
               && Pieces(place, costs, cuts, pc, c) == Some(ranklist[..FirstBlock(cuts, c)])
    modifies ranklist
    ensures placed <==> Pieces(place, costs, cuts, pc, c + 1).Some?
    ensures cuts[c] <= ranklist.Length
    ensures placed ==> Pieces(place, costs, cuts, pc, c + 1) == Some(ranklist[..cuts[c]])
  {
    assert ChunkInRange(cuts, c, pc, |costs|);
    var piece;
    placed, piece := PlaceChunk(costs, chunk, place, cuts, c, pc);
    if placed {
      CopyPiece(piece, ranklist, chunk.blockFirst);
    }
  }

  /** The loop over the chunks. */
  method PlaceChunks(costs: seq<real>, ranklist: array<int>, chunks: array<Chunk>, ghost place: Policy,
                     ghost cuts: seq<nat>, ghost pc: nat)
    returns (ok: bool)
    requires Nonnegative(costs) && ranklist.Length == |costs| && IsCdp(place)
    requires CutsInRange(cuts, pc, |costs|) && FirstBlock(cuts, |cuts|) == |costs|
    requires AllDescribed(chunks[..], cuts, pc)
    modifies ranklist
    ensures ok <==> Pieces(place, costs, cuts, pc, |cuts|).Some?
    ensures ok ==> Pieces(place, costs, cuts, pc, |cuts|) == Some(ranklist[..])
  {
    for c := 0 to chunks.Length
      invariant FirstBlock(cuts, c) <= ranklist.Length
      invariant Pieces(place, costs, cuts, pc, c) == Some(ranklist[..FirstBlock(cuts, c)])
    {
      assert Describes(chunks[..][c], cuts, pc, c);
      var placed := PlaceAndCopy(costs, ranklist, chunks[c], place, cuts, c, pc);
      if !placed {
        NoneStays(place, costs, cuts, pc, c + 1, |cuts|);
        return false;
      }
    }
    assert ranklist[..|costs|] == ranklist[..];
    return true;
  }

  /** Inputs on which no assertion can fail. */
  ghost predicate HasSafeInput(costs: seq<real>, nranks: nat, nchunks: nat)
    requires 0 < nchunks
  {
    && 0 < nranks <= |costs| && nranks % nchunks == 0
    && Positive(costs) && costs[|costs| - 1] > EPSILON
  }

  /** The serial result: the pieces of the chunker's chunks, one after the other. */
  ghost predicate IsChunkedPlacement(place: Policy, costs: seq<real>, ranks: seq<int>, nranks: nat, nchunks: nat)
    requires 0 < nchunks
  {
    var cuts := Cuts(costs, nranks, nchunks);
    && cuts.Some? && |cuts.value| == nchunks && CutsInRange(cuts.value, nranks / nchunks, |costs|)
    && FirstBlock(cuts.value, nchunks) == |costs|
    && Pieces(place, costs, cuts.value, nranks / nchunks, nchunks) == Some(ranks)
  }

  /** A full contiguous placement followed by one on the next ranks is one on all of them. */
  lemma JoinContiguous(p: seq<int>, n1: nat, m1: nat, q: seq<int>, n2: nat, m2: nat)
    requires IsFullContiguous(p, n1, m1) && IsFullContiguous(q, n2, m2)
    ensures IsFullContiguous(p + Shift(q, m1), n1 + n2, m1 + m2)
  {
    var all := p + Shift(q, m1);
    forall r | 0 <= r < m1 + m2 ensures r in all {
      if r < m1 {
        assert r in p;
      } else {
        assert r - m1 in q;
        var i :| 0 <= i < |q| && q[i] == r - m1;
        assert all[n1 + i] == r;
      }
    }
  }

  /** The per-chunk policy leaves no rank out, and succeeds on positive costs. */
  ghost predicate FillsRanks(place: Policy, costs: seq<real>, nranks: nat)
  {
    0 < nranks <= |costs| ==>
      && (place(costs, nranks).Some? ==> IsFullContiguous(place(costs, nranks).value, |costs|, nranks))
      && (Positive(costs) ==> place(costs, nranks).Some?)
  }

  lemma CdpFillsRanks(place: Policy, costs: seq<real>, nranks: nat)
    requires IsCdp(place)
    ensures FillsRanks(place, costs, nranks)
  {
    assert PolicyAt(place, costs, nranks);
    if 0 < nranks <= |costs| {
      if Improved(costs, nranks).Some? {
        ImprovedIsContiguous(costs, nranks);
      }
      if Positive(costs) {
        ImprovedSucceeds(costs, nranks);
      }
    }
  }

  ghost predicate Positive(costs: seq<real>)
  {
    forall b :: 0 <= b < |costs| ==> 0.0 < costs[b]
  }

  lemma {:induction false} PiecesFillRanks(place: Policy, costs: seq<real>, cuts: seq<nat>, pc: nat, k: nat)
    requires CutsInRange(cuts, pc, |costs|) && k <= |cuts| && IsCdp(place)
    ensures Positive(costs) ==> Pieces(place, costs, cuts, pc, k).Some?
    ensures Pieces(place, costs, cuts, pc, k).Some?
        ==> IsFullContiguous(Pieces(place, costs, cuts, pc, k).value, FirstBlock(cuts, k), Product(k, pc))
  {
    if k > 0 {
      PiecesFillRanks(place, costs, cuts, pc, k - 1);
      assert ChunkInRange(cuts, k - 1, pc, |costs|);
      var chunkCosts := ChunkCosts(costs, cuts, k - 1);
      CdpFillsRanks(place, chunkCosts, pc);
      if Pieces(place, costs, cuts, pc, k).Some? {
        JoinContiguous(Pieces(place, costs, cuts, pc, k - 1).value, FirstBlock(cuts, k - 1), Product(k - 1, pc),
          place(chunkCosts, pc).value, |chunkCosts|, pc);
      }
    }
  }

  /** The cuts the chunker settled on, in the form the placement needs. */
  ghost predicate AreCuts(costs: seq<real>, cuts: seq<nat>, nranks: nat, nchunks: nat, pc: nat)
    requires 0 < nchunks
  {
    && pc == nranks / nchunks
    && Cuts(costs, nranks, nchunks) == Some(cuts) && |cuts| == nchunks
    && CutsInRange(cuts, pc, |costs|) && FirstBlock(cuts, |cuts|) == |costs|
  }

  /** When ComputeChunks and ValidateChunks both go through. */
  ghost predicate CanCut(costs: seq<real>, nranks: nat, nchunks: nat)
    requires 0 < nchunks
  {
    && nranks % nchunks == 0 && Cuts(costs, nranks, nchunks).Some?
    && AreCuts(costs, Cuts(costs, nranks, nchunks).value, nranks, nchunks, nranks / nchunks)
  }

  /** When AssignBlocks goes through: also every chunk's policy succeeds. */
  ghost predicate CanPlace(place: Policy, costs: seq<real>, nranks: nat, nchunks: nat)
    requires 0 < nchunks
  {
    && CanCut(costs, nranks, nchunks)
    && Pieces(place, costs, Cuts(costs, nranks, nchunks).value, nranks / nchunks, nchunks).Some?
  }

  /** When one process gets as far as the gather. */
  ghost predicate CanContribute(place: Policy, costs: seq<real>, nranks: nat, nchunks: nat, me: nat)
    requires 0 < nchunks
  {
    && CanCut(costs, nranks, nchunks)
    && var cuts := Cuts(costs, nranks, nchunks).value;
       (me < |cuts| ==> ChunkInRange(cuts, me, nranks / nchunks, |costs|)
                        && Piece(place, costs, cuts, nranks / nchunks, me).Some?)
  }

  /** Safe inputs go through. */
  lemma SafeInputSucceeds(place: Policy, costs: seq<real>, nranks: nat, nchunks: nat, me: nat)
    requires 0 < nchunks && IsCdp(place) && HasSafeInput(costs, nranks, nchunks)
    ensures CanPlace(place, costs, nranks, nchunks)
    ensures CanContribute(place, costs, nranks, nchunks, me)
  {
    RanksPerChunk(nranks, nchunks);
    CutsAreGood(costs, nranks, nchunks);
    var cuts := Cuts(costs, nranks, nchunks).value;
    GoodCutsCover(cuts, nranks / nchunks, |costs|);
    PiecesFillRanks(place, costs, cuts, nranks / nchunks, nchunks);
    SafeContribution(place, costs, cuts, nranks / nchunks, me);
  }

  /** ComputeChunks and ValidateChunks together; false stands for an abort in either. */
  method CutAndValidate(costs: seq<real>, nranks: nat, nchunks: nat)
    returns (ok: bool, chunks: array<Chunk>, ghost cuts: seq<nat>, ghost pc: nat)
    requires 0 < nranks && 0 < nchunks
    ensures fresh(chunks) && chunks.Length == nchunks
    ensures ok <==> CanCut(costs, nranks, nchunks)
    ensures ok ==> AreCuts(costs, cuts, nranks, nchunks, pc) && AllDescribed(chunks[..], cuts, pc)
  {
    pc := nranks / nchunks;
    ok, chunks, cuts := ComputeChunks(costs, nranks, nchunks);
    if ok {
      RanksPerChunk(nranks, nchunks);
      ok := ValidateChunks(chunks, |costs|, nranks, nchunks);
      ValidExactly(chunks[..], cuts, |costs|, nranks, nchunks);
    }
  }

  /** Validation passes exactly for one range per chunk, and then the records describe the ranges. */
  lemma ValidExactly(chunks: seq<Chunk>, cuts: seq<nat>, nblocks: nat, nranks: nat, nchunks: nat)
    requires 0 < nchunks && 0 < nranks / nchunks
    requires |chunks| == nchunks && ChunksSoFar(chunks, cuts, nranks / nchunks, nblocks)
    requires FirstBlock(cuts, |cuts|) == nblocks
    ensures Validates(chunks, nblocks, nranks, nchunks)
            <==> |cuts| == nchunks && CutsInRange(cuts, nranks / nchunks, nblocks)
    ensures Validates(chunks, nblocks, nranks, nchunks) ==> AllDescribed(chunks, cuts, nranks / nchunks)
  {
    if Validates(chunks, nblocks, nranks, nchunks) {
      ValidatedCuts(chunks, cuts, nblocks, nranks, nchunks);
      forall c | 0 <= c < nchunks ensures Describes(chunks[c], cuts, nranks / nchunks, c) {
        assert HasRanks(chunks[c], c, nranks / nchunks);
      }
    } else if |cuts| == nchunks && CutsInRange(cuts, nranks / nchunks, nblocks) {
      RangesValidate(chunks, cuts, nblocks, nranks, nchunks);
    }
  }

  /** false stands for an abort in the chunker, in its validation or in a chunk's policy. */
  method AssignBlocks(costs: seq<real>, ranklist: array<int>, nranks: nat, nchunks: nat, ghost place: Policy)
    returns (ok: bool)
    requires 0 < nranks && 0 < nchunks && Nonnegative(costs) && ranklist.Length == |costs| && IsCdp(place)
    modifies ranklist
    ensures ok <==> CanPlace(place, costs, nranks, nchunks)
    ensures ok ==> IsChunkedPlacement(place, costs, ranklist[..], nranks, nchunks)
  {
    var cut, chunks, cuts, pc := CutAndValidate(costs, nranks, nchunks);
    if !cut {
      return false;
    }
    ok := PlaceChunks(costs, ranklist, chunks, place, cuts, pc);
  }

  /** Main result on chunked CDP: the placement is contiguous in rank order and uses every rank. */
  lemma ChunkedIsContiguous(costs: seq<real>, ranks: seq<int>, nranks: nat, nchunks: nat, place: Policy)
    requires 0 < nchunks && 0 < nranks && nranks % nchunks == 0 && IsCdp(place)
    requires IsChunkedPlacement(place, costs, ranks, nranks, nchunks)
    ensures IsFullContiguous(ranks, |costs|, nranks)
  {
    RanksPerChunk(nranks, nchunks);
    PiecesFillRanks(place, costs, Cuts(costs, nranks, nchunks).value, nranks / nchunks, nchunks);
  }

  // ----- the parallel policy -----

  /** What process r contributes to the gather. */
  function Contribution(place: Policy, costs: seq<real>, cuts: seq<nat>, pc: nat, r: nat): Option<seq<int>>
    requires r < |cuts| ==> ChunkInRange(cuts, r, pc, |costs|)
  {
    if r < |cuts| then Piece(place, costs, cuts, pc, r) else Some([])
  }

  /** recvcnts of the source. */
  function RecvCount(cuts: seq<nat>, r: nat): int
  {
    if r < |cuts| then cuts[r] - FirstBlock(cuts, r) else 0
  }

  /** Where the contribution of process r belongs: at the first block of its chunk. */
  function Displacement(cuts: seq<nat>, r: nat): nat
  {
    if r < |cuts| then FirstBlock(cuts, r) else FirstBlock(cuts, |cuts|)
  }

  method GatherLayout(chunks: array<Chunk>, ghost cuts: seq<nat>, ghost pc: nat, nmpiranks: nat)
    returns (recvcnts: array<int>, displs: array<int>)
    requires chunks.Length == |cuts| <= nmpiranks && 0 < |cuts| && AllDescribed(chunks[..], cuts, pc)
    ensures fresh(recvcnts) && fresh(displs) && recvcnts.Length == displs.Length == nmpiranks
    ensures forall r :: 0 <= r < nmpiranks ==> recvcnts[r] == RecvCount(cuts, r) && displs[r] == Displacement(cuts, r)
  {
    recvcnts := new int[nmpiranks](_ => 0);
    for r := 0 to nmpiranks
      invariant forall r' :: 0 <= r' < r ==> recvcnts[r'] == RecvCount(cuts, r')
    {
      assert r < chunks.Length ==> Describes(chunks[..][r], cuts, pc, r);
      recvcnts[r] := if r < chunks.Length then chunks[r].NumBlocks() else 0;
    }
    displs := new int[nmpiranks](_ => 0);
    for i := 1 to nmpiranks
      invariant forall r :: 0 <= r < nmpiranks ==> recvcnts[r] == RecvCount(cuts, r)
      invariant forall r :: 0 <= r < i ==> displs[r] == Displacement(cuts, r)
    {
      displs[i] := displs[i - 1] + recvcnts[i - 1];
    }
  }

  /** The piece of process me, empty when it has no chunk; false stands for an abort of the policy. */
  method LocalPiece(costs: seq<real>, chunks: array<Chunk>, me: nat, ghost place: Policy, ghost cuts: seq<nat>,
                    ghost pc: nat)
    returns (ok: bool, piece: array<int>)
    requires Nonnegative(costs) && IsCdp(place) && CutsInRange(cuts, pc, |costs|)
    requires AllDescribed(chunks[..], cuts, pc)
    ensures me < |cuts| ==> ChunkInRange(cuts, me, pc, |costs|)
    ensures ok <==> Contribution(place, costs, cuts, pc, me).Some?
    ensures ok ==> Contribution(place, costs, cuts, pc, me) == Some(piece[..])
  {
    if me < chunks.Length {
      assert ChunkInRange(cuts, me, pc, |costs|);
      assert Describes(chunks[..][me], cuts, pc, me);
      ok, piece := PlaceChunk(costs, chunks[me], place, cuts, me, pc);
    } else {
      ok, piece := true, new int[0];
      assert piece[..] == [];
    }
  }

  lemma SafeContribution(place: Policy, costs: seq<real>, cuts: seq<nat>, pc: nat, r: nat)
    requires IsCdp(place) && CutsInRange(cuts, pc, |costs|)
    requires Positive(costs)
    ensures r < |cuts| ==> ChunkInRange(cuts, r, pc, |costs|)
    ensures Contribution(place, costs, cuts, pc, r).Some?
  {
    if r < |cuts| {
      assert ChunkInRange(cuts, r, pc, |costs|);
      CdpFillsRanks(place, ChunkCosts(costs, cuts, r), pc);
    }
  }

  /** One process up to the gather; false stands for an abort. */
  method ContributePiece(costs: seq<real>, nranks: nat, nchunks: nat, me: nat, nmpiranks: nat, ghost place: Policy)
    returns (ok: bool, piece: array<int>, recvcnts: array<int>, displs: array<int>, ghost cuts: seq<nat>, ghost pc: nat)
    requires 0 < nranks && 0 < nchunks && Nonnegative(costs) && IsCdp(place) && me < nmpiranks
    ensures ok ==> AreCuts(costs, cuts, nranks, nchunks, pc)
    ensures ok ==> me < |cuts| ==> ChunkInRange(cuts, me, pc, |costs|)
    ensures ok ==> Contribution(place, costs, cuts, pc, me) == Some(piece[..])
    ensures ok ==> recvcnts.Length == displs.Length == nmpiranks
    ensures ok ==> forall r :: 0 <= r < nmpiranks ==>
              recvcnts[r] == RecvCount(cuts, r) && displs[r] == Displacement(cuts, r)
    ensures ok <==> nchunks <= nranks && nchunks <= nmpiranks && CanContribute(place, costs, nranks, nchunks, me)
  {
    piece, recvcnts, displs := new int[0], new int[0], new int[0];
    cuts, pc := [], 0;
    if nchunks > nranks || nchunks > nmpiranks {
      return false, piece, recvcnts, displs, cuts, pc;
    }
    var chunks;
    ok, chunks, cuts, pc := CutAndValidate(costs, nranks, nchunks);
    if !ok {
      return;
    }
    ok, piece := LocalPiece(costs, chunks, me, place, cuts, pc);
    ghost var local := piece[..];
    recvcnts, displs := GatherLayout(chunks, cuts, pc, nmpiranks);
    assert piece[..] == local;
  }

  /** MPI_Allgatherv at one receiver: the contributions of processes 0..k-1 written at their displacements. */
  function Gathered(buffer: seq<int>, pieces: seq<seq<int>>, displs: seq<nat>, k: nat): Option<seq<int>>
    requires k <= |pieces| && k <= |displs|
  {
    if k == 0 then Some(buffer)
    else
      var before := Gathered(buffer, pieces, displs, k - 1);
      var at, piece := displs[k - 1], pieces[k - 1];
      if before.None? || at + |piece| > |before.value| then None
      else Some(before.value[..at] + piece + before.value[at + |piece|..])
  }

  /** The contributions of all processes, each at its own displacement. */
  ghost predicate AreContributions(place: Policy, costs: seq<real>, cuts: seq<nat>, pc: nat, pieces: seq<seq<int>>,
                                   displs: seq<nat>)
    requires CutsInRange(cuts, pc, |costs|)
  {
    && |pieces| == |displs| >= |cuts|
    && (forall r :: 0 <= r < |pieces| ==> displs[r] == Displacement(cuts, r))
    && (forall r :: 0 <= r < |cuts| ==> ContributesPiece(place, costs, cuts, pc, pieces, r))
    && (forall r :: |cuts| <= r < |pieces| ==> pieces[r] == [])
  }

  ghost predicate ContributesPiece(place: Policy, costs: seq<real>, cuts: seq<nat>, pc: nat, pieces: seq<seq<int>>,
                                   r: nat)
    requires r < |cuts| && r < |pieces|
  {
    ChunkInRange(cuts, r, pc, |costs|) && Piece(place, costs, cuts, pc, r) == Some(pieces[r])
  }

  lemma {:induction false} GatherPrefix(place: Policy, costs: seq<real>, cuts: seq<nat>, pc: nat, buffer: seq<int>,
                                        pieces: seq<seq<int>>, displs: seq<nat>, k: nat)
    requires CutsInRange(cuts, pc, |costs|) && k <= |pieces| && |buffer| == |costs|
               && FirstBlock(cuts, |cuts|) <= |costs|
    requires AreContributions(place, costs, cuts, pc, pieces, displs)
    ensures Pieces(place, costs, cuts, pc, if k < |cuts| then k else |cuts|).Some?
    ensures Gathered(buffer, pieces, displs, k).Some?
    ensures |Gathered(buffer, pieces, displs, k).value| == |costs|
    ensures Displacement(cuts, k) <= |costs|
    ensures Gathered(buffer, pieces, displs, k).value[..Displacement(cuts, k)]
            == Pieces(place, costs, cuts, pc, if k < |cuts| then k else |cuts|).value
  {
    if k > 0 {
      GatherPrefix(place, costs, cuts, pc, buffer, pieces, displs, k - 1);
      var before := Gathered(buffer, pieces, displs, k - 1).value;
      var at, piece := displs[k - 1], pieces[k - 1];
      if k - 1 < |cuts| {
        assert ContributesPiece(place, costs, cuts, pc, pieces, k - 1);
        assert at + |piece| == Displacement(cuts, k) == cuts[k - 1];
      }
      assert before[..at] + piece == Gathered(buffer, pieces, displs, k).value[..at + |piece|];
    }
  }

  /**
   Main result on parallel chunked CDP. Whatever is in a process's rank list before, and however many processes take
   part, after the gather it is exactly what the serial policy computes.
   */
  lemma ParallelIsSerial(place: Policy, costs: seq<real>, cuts: seq<nat>, nranks: nat, nchunks: nat, pc: nat,
                         buffer: seq<int>, pieces: seq<seq<int>>, displs: seq<nat>)
    requires 0 < nchunks && |buffer| == |costs| && AreCuts(costs, cuts, nranks, nchunks, pc)
    requires AreContributions(place, costs, cuts, pc, pieces, displs)
    ensures Gathered(buffer, pieces, displs, |pieces|).Some?
    ensures IsChunkedPlacement(place, costs, Gathered(buffer, pieces, displs, |pieces|).value, nranks, nchunks)
  {
    GatherPrefix(place, costs, cuts, pc, buffer, pieces, displs, |pieces|);
    var all := Gathered(buffer, pieces, displs, |pieces|).value;
    assert all[..|costs|] == all;
  }
}
