# Verified model of the AMR placement and communication tools

This project models the placement policies of the load-balancing library (`lb/src`), the octree mesh and communication
plan of the communication benchmark (`tools/commbench/src`), the alias-method sampler (`tools-common`) and the Sweep3D
communication pattern (`tools/ember-benchmarks`), and proves what they promise. `dafny verify dfyconfig.toml` checks
everything.

## What is modelled

**Placements.** A placement gives every block a rank; `Placement.Load` is what a rank carries. Costs are exact reals.

| files | policy |
|---|---|
| `Lpt`, `Sorting` | longest processing time first, with the seeded queue |
| `Contiguous`, `GreedyRule` | the greedy contiguous split, its unit-cost case, and where it closes a rank |
| `Layouts`, `Cdp`, `ContigImproved` | the contiguous dynamic program CDP: table, sentinel, backtracking |
| `Dp2` | the unrestricted contiguous-partition table |
| `Chunkwise`, `CutRule`, `ChunkedCdp` | the chunker and where it cuts, chunked CDP, and the gather of its parallel version |
| `Rebalance`, `Cplx`, `SelectionRule`, `Choice` | CPLX: rank selection from both ends and which ranks it takes, LPT on the selected ranks, alternatives, and what the choice among them is worth |
| `Exchange`, `Solver` | the iterative block-swapping solver on its mutable rank objects |
| `Extrapolate` | carrying costs over a mesh change |

**Mesh and communication.** `Octree` has locations and forests of active blocks, `Covering` the depth-first numbering and
the lookup of covering leaves, `Neighbors` the touching relation of two blocks, `NeighborLists` and `Mesh` the lists the
mesh builds. `CommPlan` and `Blocks` turn the lists and a placement into sends and receives, `Boundary` follows one block's
buffers through a round, and `CommRounds` is the state machine of all ranks over many rounds.

**Sampling.** `Alias` has the two-queue table construction and what the tables represent.

**Sweep3D.** `Messages` is a state machine of ranks with blocking sends and receives in which the system may or may not
buffer a send; `Sweep3D` has the process grid, the four sweeps and the clock that shows no rank can wait forever.

Every loop and every object that the source updates in place is a method or a class here; the specification functions the
methods are proved against are where the main lemmas start.

## What the proofs found

- The contiguous dynamic program fails its backtracking assertion exactly when the total cost is 0: the sentinel is a
  multiple of the total (`Cdp.AssignBlocksDP`).
- The greedy split aborts on non-negative costs exactly when all are 0 (`Contiguous.AllFreeAborts`), or when blocks of cost
  0 come first and the first costly one is reached with ranks left below the current one (`Contiguous.GreedyAbortsIff`). In
  terms of the input: never on one rank; always when fewer blocks than ranks are left from the first costly one on; on two
  ranks exactly when that block costs more than all after it together, as in [0, 1] (`Contiguous.GreedyAbortsOn`,
  `Contiguous.FreeFirstBlockAborts`).
- `ComputeChunks` stays within its chunks exactly when the last block costs more than `EPSILON`, or the chunks before the
  last one leave it just one block per rank (`Chunkwise.ChunkerExactly`); otherwise the last chunk is closed early and the
  chunk index runs past the end, as it does for costs [1, 0], one rank and one chunk (`Chunkwise.FreeBlockFails`). With a
  free last block a caller can rely on as many blocks as ranks, which always succeeds; with one chunk nothing else does, and
  with two chunks only costs whose second half is late enough (`Chunkwise.FreeLastBlockExactly`). Earlier blocks may be free.
- `axis_info` narrows 64-bit coordinates to `int`. The neighbour test is right on all meshes that refinement can reach
  exactly when the finest coordinates stay below 2^31 (`NeighborLists.TestIsExactIff`); otherwise two leaves that share a
  face are not recognized and the lists miss each other (`NeighborLists.OverflowMesh`, `NeighborLists.UnrecognizedIsMissing`).
- LPT meets Graham's factor 4/3 - 1/(3m), plus `delta * (m - 1)` for the seeds of the queue.
- SWAP3 of the solver can raise the maximum load; the exact condition is in `Exchange.MaximumStaysIff` and an example in
  `Exchange.TradeCanRaise`.
- CPLX compares maximum loads truncated to integers, so an alternative may replace a better main solution: for costs 0.2,
  0.5 and 0.2 on two ranks a maximum of 0.7 replaces one of 0.5 (`Choice.WorseChoice`). The loss is always less than 1
  (`Choice.ChosenWithinUnit`), no smaller limit holds (`Choice.SmallUnitIsUnsafe`), and on costs that are multiples of a unit
  there is never a loss if and only if the unit is at least 1, so whole-number costs are safe (`Choice.UnitIsSafeIff`).
  Graham's bound holds either way (`Cplx.CplxBound`).
- Sweep3D checks only that `pex * pey` is the number of ranks and that the k-block size divides `nz`. All peers exist exactly
  when `pex` is positive; the defaults `pex = pey = -1` pass on one rank, which then sends to rank 1
  (`Sweep3D.GridSignDecides`). With a negative k-block size and planes to sweep the loops do not end (`Sweep3D.LoopEndsIff`).
- `ContiguousTest1` in `lb/tests/policy_tests.cc:66` expects the greedy split to leave a rank unassigned. The model follows
  the code, whose `low_on_blocks` rule gives every rank a block (`Contiguous.GreedyIsContiguous`).

## Model

| member | source | states |
|---|---|---|
| Lpt.AssignBlocksLPT | lb/src/lb_lspt.cc:22-77 | Some order of decreasing cost exists in which each block went to a rank whose seeded load was least at that moment |
| Lpt.LptApproximation | lb/src/lb_lspt.cc:22-59 | For every other placement with maximum load OPT, LPT's maximum is at most (4/3 - 1/(3m)) OPT + delta (m - 1) |
| Lpt.ScheduleBound | lb/src/lb_lspt.cc:46-58 | The same for every rank of a list schedule over descending costs, by the last block it received |
| Lpt.LptIsPlacement | lb/src/lb_lspt.cc:26-58 | Every block gets a rank in range |
| Lpt.LptUsesEveryRank | lb/src/lb_lspt.cc:33-58 | With at least as many blocks as ranks and costs above the seed spread every rank gets a block |
| Lpt.LptStartsInRankOrder | lb/src/lb_lspt.cc:33-58 | With a positive delta and costs above the seed spread the largest blocks go to ranks 0, 1, 2, ... in turn |
| Contiguous.AssignBlocksContiguous | lb/src/lb_policies.cc:174-222 | The reverse loop writes the greedy split, and aborts exactly when the target becomes 0 |
| GreedyRule.GreedyFollowsRule | lb/src/lb_policies.cc:189-219 | Every rank above 0 begins with the last block with which it carries its share of what is left for it and the lower ranks, or leaves them one block each |
| Contiguous.GreedySplit | lb/src/lb_policies.cc:186-219 | With a positive first cost and enough blocks: no abort, contiguous, every rank used, maximum at most average plus largest cost |
| Contiguous.GreedyIsContiguous | lb/src/lb_policies.cc:189-219 | Whenever the loop does not abort, ranks are non-decreasing and every rank has a block |
| Contiguous.GreedyAbortsIff | lb/src/lb_policies.cc:189-219 | Non-negative costs, not all 0: it aborts if and only if the first costly block is not the first one and is reached above rank 0 |
| Contiguous.GreedyAbortsOn | lb/src/lb_policies.cc:189-219 | What a caller can check: never on one rank, always with too few blocks after the free ones, and the exact condition on two ranks |
| Contiguous.UnitCostIsBalanced | lb/src/lb_policies.cc:65-67 | Unit costs: the n mod m highest ranks get one block more than the others |
| Cdp.AssignBlocksDP | lb/src/lb_contig_improv.cc:72-185 | Backtracking writes the optimal layout, and its assertion fails exactly when the total cost is 0 |
| Cdp.FillTable | lb/src/lb_contig_improv.cc:106-137 | The nested loops fill every cell with the optimum of the recurrence |
| Cdp.Backtrack | lb/src/lb_contig_improv.cc:142-180 | The walk back marks exactly the chunks of an optimal choice, and meets the sentinel exactly when it is 0 |
| Cdp.BestIsLeast | lb/src/lb_contig_improv.cc:106-137 | No order of i chunks of one size and j of the other has a cheaper most expensive chunk |
| Cdp.ChosenSizesCost | lb/src/lb_contig_improv.cc:145-180 | The backtracked order reaches the optimum |
| Cdp.BestIsBounded | lb/src/lb_contig_improv.cc:93-134 | The optimum never exceeds the total, so the sentinel is never a real value |
| Cdp.CdpIsCandidate | lb/src/lb_contig_improv.cc:82-85 | CDP's result is contiguous, balanced to within one block, and uses every rank |
| Cdp.CdpIsOptimal | lb/src/lb_contig_improv.cc:72-185 | No contiguous balanced placement has a smaller maximum load |
| Cdp.GetSumRange | lb/src/lb_contig_improv.cc:61-67 | On the cumulative costs it returns the sum of the range, 0 for the empty one |
| ContigImproved.AssignBlocksContigImproved | lb/src/lb_contig_improv.cc:189-200 | Divisible block counts go to the greedy split, others to CDP, with the error cases of each |
| ContigImproved.ImprovedEvenBound | lb/src/lb_contig_improv.cc:189-200 | Blocks that divide evenly, first cost positive: every load is at most the average plus the largest cost |
| ContigImproved.ImprovedUnevenIsOptimal | lb/src/lb_contig_improv.cc:189-200 | Other block counts: no contiguous balanced placement has a smaller maximum |
| ContigImproved.ImprovedIsContiguous | lb/src/lb_contig_improv.cc:189-200 | Whatever it returns is contiguous and uses every rank |
| ContigImproved.ImprovedSucceeds | lb/src/lb_contig_improv.cc:189-200 | It succeeds when the first block has a positive cost |
| Dp2.AssignBlocksDP2 | lb/src/lb_contig_improv2.cc:60-105 | Every cell for at least one rank holds the best split of that prefix |
| Dp2.SplitIsOptimal | lb/src/lb_contig_improv2.cc:83-100 | A bound is at least the table's value exactly when some contiguous placement, empty ranks allowed, meets it |
| Dp2.SplitBelowCdp | lb/src/lb_contig_improv2.cc:60-105 | The value is a lower bound on the maximum load CDP reaches |
| Chunkwise.ComputeChunks | lb/src/lb_chunkwise.h:160-243 | The loop computes the cuts in place and fails exactly when nchunks does not divide nranks or the chunk index overruns |
| CutRule.CutsExactly | lb/src/lb_chunkwise.h:188-236 | For any costs and chunk count the cuts are exactly those at which each chunk first has its blocks and its share of the remaining cost, or leaves the later chunks just their blocks |
| Chunkwise.ValidateChunks | lb/src/lb_chunkwise.h:250-280 | The assertions pass exactly when the chunks are valid |
| Chunkwise.CutsAreGood | lb/src/lb_chunkwise.h:188-236 | With the last cost above EPSILON there are exactly nchunks cuts, contiguous, with a block per rank |
| Chunkwise.FreeLastBlockOverruns | lb/src/lb_chunkwise.h:204-235 | A last cost of at most EPSILON overruns from any state in which the last chunk can fill up before the last block |
| Chunkwise.ChunkerExactly | lb/src/lb_chunkwise.h:160-243 | Success if and only if the last cost is above EPSILON or the last chunk has no block to spare; then the cuts are good |
| Chunkwise.FreeLastBlockExactly | lb/src/lb_chunkwise.h:188-236 | A free last block: success with one block per rank, with one chunk only then, with two chunks exactly when half of the total comes late |
| Chunkwise.FreeBlockFails | lb/src/lb_chunkwise.h:204-235 | The failing input [1, 0] on one rank and one chunk |
| ChunkedCdp.AssignBlocks | lb/src/lb_chunkwise.h:39-71 | Writes every chunk's placement, shifted to its ranks; fails exactly when the ranks do not divide, the chunker overruns, the validation fails or a chunk's policy fails |
| ChunkedCdp.SafeInputSucceeds | lb/src/lb_chunkwise.h:39-128 | Positive costs, the last above EPSILON, at least as many blocks as ranks and divisible ranks: none of that happens |
| ChunkedCdp.GoodCutsValidate | lb/src/lb_chunkwise.h:250-280 | Good cuts pass all assertions of ValidateChunks |
| ChunkedCdp.ValidatedCuts | lb/src/lb_chunkwise.h:250-280 | Chunks that pass them describe ranges that cover all blocks |
| ChunkedCdp.ChunkedIsContiguous | lb/src/lb_chunkwise.h:39-71 | Chunked CDP's result is contiguous over all ranks and uses every rank |
| ChunkedCdp.GatherLayout | lb/src/lb_chunkwise.h:118-126 | Receive counts are chunk sizes and displacements are first blocks |
| ChunkedCdp.ContributePiece | lb/src/lb_chunkwise.h:73-128 | Each process contributes its chunk's placement, or nothing; it fails exactly on too many chunks, in the chunker or its validation, or in its own chunk's policy |
| ChunkedCdp.ParallelIsSerial | lb/src/lb_chunkwise.h:73-140 | After the gather every process holds what the serial version computes |
| Rebalance.OldPlacementCompetes | lb/src/lb_cplx.cc:48-81 | The old placement of the selected blocks is a feasible competitor for LPT |
| Rebalance.RebalanceFrame | lb/src/lb_cplx.cc:73-81 | Blocks of other ranks do not move, selected blocks stay inside the selected ranks |
| Rebalance.RebalanceBound | lb/src/lb_cplx.cc:48-88 | The result's maximum is at most (4/3 - 1/(3k)) times the start's plus delta (k - 1) |
| Cplx.GetLPTRanks | lb/src/lb_cplx.cc:439-530 | Selects a prefix and a suffix of the ranks sorted by load, as the growing rule decides |
| Cplx.GrowLoop | lb/src/lb_cplx.cc:464-507 | The loop with its running sum follows the growing rule and never exceeds the limit |
| Cplx.SelectionIsSound | lb/src/lb_cplx.cc:439-530 | Distinct ranks, at most nmax; fewer only when their mean is the average or all others are near it |
| SelectionRule.SelectionInOrder | lb/src/lb_cplx.cc:464-507 | The selection is an order of picks: a most loaded rank, then the least or the most loaded of the others as the picks carry more or less than average, with exactly the three reasons to stop |
| SelectionRule.SelectionStaysClose | lb/src/lb_cplx.cc:464-507 | Selected ranks together are off the average by no more than a single rank can be |
| SelectionRule.SelectionTakesBothEnds | lb/src/lb_cplx.cc:464-507 | A rank of greatest load is selected, and with a second one, if that load is above average, one of least load |
| Cplx.GetBlocksForRanks | lb/src/lb_cplx.cc:532-549 | Exactly the blocks on the selected ranks; out of range exactly when a selected rank is above every rank with a block |
| Cplx.ComputeCostMax | lb/src/policy_utils.cc:241-261 | The maximum of the loads truncated to integers |
| Cplx.ComputePartialSolution | lb/src/lb_cplx.cc:48-88 | One solution: selection, LPT on its blocks, placement, truncated maximum |
| Cplx.SolutionFrame | lb/src/lb_cplx.cc:73-81 | A solution moves nothing outside its selection |
| Cplx.SolutionBound | lb/src/lb_cplx.cc:48-88 | A solution with k selected ranks obeys the bound for k |
| Cplx.StartPlacement | lb/src/lb_cplx.cc:229-242 | The start is CDP's placement up to 512 ranks and chunked CDP's beyond; it fails exactly when these do |
| Cplx.SafeStart | lb/src/lb_cplx.cc:229-242 | They do not on costs above EPSILON with ranks that fill whole chunks |
| Cplx.StartIsContiguous | lb/src/lb_cplx.cc:229-242 | Either start is contiguous and uses every rank |
| Cplx.Improve | lb/src/lb_cplx.cc:258-283 | The last accepted solution wins: each alternative may use half as many ranks, is accepted unless its truncated maximum exceeds the main one's, and the first rejected one ends the loop |
| Cplx.TrailShrinks | lb/src/lb_cplx.cc:264-280 | The k-th accepted alternative reschedules at most 1/2^k as many ranks as the main solution |
| Cplx.AssignBlocksV2 | lb/src/lb_cplx.cc:218-284 | The whole policy, from the start placement to the winning solution; fails exactly when the start does |
| Cplx.CplxBound | lb/src/lb_cplx.cc:218-284 | For n allowed ranks the result's maximum is at most (4/3 - 1/(3n)) times the start's plus delta (n - 1); with none allowed the start is returned |
| Choice.ChosenWithinUnit | lb/src/lb_cplx.cc:264-280 | Every load of the chosen solution is less than the main solution's maximum plus 1 |
| Choice.UnitIsSafeIff | lb/src/lb_cplx.cc:264-280 | On costs in multiples of u the chosen maximum never exceeds the main one if and only if u is at least 1 |
| Choice.SmallUnitIsUnsafe | lb/src/lb_cplx.cc:264-280 | For every u below 1 and every seed a run from CDP's own start ends with a maximum u above the main solution's |
| Choice.WorseChoice | lb/src/lb_cplx.cc:264-280 | Costs 0.2, 0.5, 0.2 on two ranks: the chosen maximum is 0.7, the main one 0.5 |
| Choice.WorseByUnit | lb/src/lb_cplx.cc:264-280 | Costs u, x, u on two ranks: the unchanged start wins over a better main solution whenever x and x + u truncate to the same integer |
| Exchange.SquaresFallIff | lb/src/lb-common/solver.h:169-207 | A move lowers the sum of squared loads exactly when it shifts a positive cost below the gap; SWAP1 and SWAP2 do |
| Exchange.LargestFirst | lb/src/lb-common/solver.h:169-207 | Of the moves that lower the sum of squares giving the largest block comes first, then giving the smallest; a trade is made if and only if giving no block of the rank lowers it |
| Exchange.ShiftsMost | lb/src/lb-common/solver.h:136-207 | No trade of the two ranks shifts more than the one made, and a rank without blocks gets the costliest block |
| Exchange.TiesByNumber | lb/src/lb-common/solver.h:120-125 | Of equal loads the highest rank gives and the lowest takes |
| Exchange.MaximumStaysIff | lb/src/lb-common/solver.h:181-207 | The maximum load does not rise exactly when the shift is between 0 and the gap; moving one block never raises it |
| Exchange.TradeCanRaise | lb/src/lb-common/solver.h:199-207 | A concrete SWAP3 raises the maximum from 10 to 18 |
| Exchange.ShiftsLoad | lb/src/lb-common/solver.h:210-220 | A move changes the loads of its two ranks only, by the same amount |
| Solver.Rank.AddBlock | lb/src/lb-common/rank.h:16-20 | Appends, adds the cost and clears the sorted flag |
| Solver.Rank.GetLargestBlock | lb/src/lb-common/rank.h:29-40 | The last block in the order of cost and index; fails exactly without blocks |
| Solver.Rank.RemoveBlock | lb/src/lb-common/rank.h:55-75 | Removes that block only, exact cost, sortedness kept; fails exactly when the block is absent |
| Solver.Solver.InitializeRanks | lb/src/lb-common/solver.h:89-118 | Builds the partition of the given placement; fails exactly on a rank out of range |
| Solver.Solver.TransferBlock | lb/src/lb-common/solver.h:210-220 | The asserts hold, and partition, costs, sorted flags and cost list stay right |
| Solver.Solver.Iterate | lb/src/lb-common/solver.h:120-208 | Makes the move the three-way rule chooses; fails exactly when the most loaded rank has no block |
| Solver.MostLoadedHasBlocks | lb/src/lb-common/solver.h:120-135 | With a positive total cost that cannot happen |
| Solver.Solver.GetRankStats | lb/src/lb-common/solver.h:234-244 | The exact average and maximum |
| Solver.Solver.UpdateRanklist | lb/src/lb-common/solver.h:246-260 | Writes for every block the rank that holds it |
| Solver.Solver.AssignBlocks | lb/src/lb-common/solver.h:17-42 | The result follows from the start by at most niters chosen moves |
| Solver.Solver.AssignBlocksToTarget | lb/src/lb-common/solver.h:44-73 | The same, ending below the target or at the iteration limit |
| Extrapolate.ExtrapolateCosts | lb/src/policy_utils.cc:153-239 | For refs and derefs in any order the walk stays in range, equals the block-by-block result and has the asserted length |
| Extrapolate.Walk | lb/src/policy_utils.cc:171-193 | The merged walk over sorted lists visits every block once and skips the inside of groups |
| Extrapolate.CostIsConserved | lb/src/policy_utils.cc:171-233 | New costs times new volumes add up to old costs times old volumes |
| Extrapolate.CostsStayInRange | lb/src/policy_utils.cc:171-233 | No new cost lies outside the range of the old ones |
| Octree.RefinementsKeepForest | tools/commbench/src/amr/mesh.h:44-52 | Every mesh reached by refinements keeps the forest structure and the level limit |
| Octree.LeavesTile | tools/commbench/src/amr/mesh.h:29-52 | A finest cell has a leaf above it exactly when it is in the domain, and never two |
| Octree.AncestorsActive | tools/commbench/src/amr/mesh.h:44-52 | The active set is ancestor-closed down to the root level |
| Covering.NumberingIsBijection | tools/commbench/src/amr/mesh.cc:62-77 | Depth-first numbering lists every leaf once for any order of roots, in Morton order below one root |
| Covering.CoverExact | tools/commbench/src/amr/mesh.cc:195-220 | The lookup finds exactly the leaves above or below a location, also outside the domain |
| Neighbors.RelationByCells | tools/commbench/src/amr/mesh.cc:151-193 | Blocks are face, edge or vertex neighbours exactly when their closest cells differ on one, two or three axes |
| Neighbors.NarrowIsExact | tools/commbench/src/amr/mesh.cc:164-173 | The narrowed test equals the relation on coordinates below 2^31 |
| Neighbors.DirectionReaches | tools/commbench/src/amr/mesh.cc:34-38 | Looking towards a neighbour one finds it above or below, at any level difference |
| NeighborLists.ListIsExact | tools/commbench/src/amr/mesh.cc:34-60 | A list holds, ascending and once each, exactly the numbers of all leaves that touch the block in its way |
| NeighborLists.ListsAreSymmetric | tools/commbench/src/amr/print_utils.h:109-132 | ValidateOmesh cannot fail |
| NeighborLists.TestIsExactIff | tools/commbench/src/amr/mesh.cc:151-193 | The test is exact on all reachable meshes if and only if the finest coordinates fit in 32 bits |
| NeighborLists.OverflowMesh | tools/commbench/src/amr/mesh.cc:164-173 | Otherwise some refinements lead to two leaves sharing a face that the test rejects |
| NeighborLists.UnrecognizedIsMissing | tools/commbench/src/amr/mesh.cc:34-60 | Leaves the test rejects are missing from the lists |
| Mesh.Mesh.constructor | tools/commbench/src/amr/mesh.h:29-37 | The root level is the least that covers the grid, and the roots are the grid |
| Mesh.Mesh.InitializeRoots | tools/commbench/src/amr/mesh.cc:125-133 | Inserts exactly the root grid |
| Mesh.Mesh.Refine | tools/commbench/src/amr/mesh.h:44-52 | Replaces a leaf by its eight children and keeps the structure |
| Mesh.GetChildLocs | tools/commbench/src/amr/mesh.cc:87-101 | The eight children in bit order |
| Mesh.Mesh.DFSAssign | tools/commbench/src/amr/mesh.cc:135-149 | Gives the leaves below a location consecutive numbers in depth-first order |
| Mesh.Mesh.GetCoveringLeaves | tools/commbench/src/amr/mesh.cc:195-220 | Computes the covering leaves |
| Mesh.Mesh.ProcessOffset | tools/commbench/src/amr/mesh.cc:34-60 | Adds exactly what the offset meets and leaves the list ascending |
| Mesh.Mesh.BuildNeighbors | tools/commbench/src/amr/mesh.h:100-120 | Each list collects exactly what is met at the offsets of its kind |
| Mesh.Mesh.GetOrderedMesh | tools/commbench/src/amr/mesh.cc:62-85 | The lists of all leaves under the depth-first numbers of some order of the roots, whatever order the sets are visited in |
| Mesh.SortUnique | tools/commbench/src/amr/mesh.cc:55-56 | The same elements, strictly ascending |
| CommPlan.PlansMatch | tools/commbench/src/bench/placement_utils.h:29-71 | Sender and receiver plan a message equally often, once exactly when its blocks are neighbours of its kind |
| CommPlan.PlannedByKind | tools/commbench/src/bench/placement_utils.h:29-60 | A block plans one message to each neighbour, with the tag and size of the list it is on, and no others |
| CommPlan.ChannelsMatch | tools/commbench/src/bench/placement_utils.h:29-71 | For all ranks p, q and every tag the sends of p to q are the receives q posts from p, in number and bytes |
| CommPlan.TotalsMatch | tools/commbench/src/amr/bvar.cc:56-133 | All ranks together send as many messages and bytes as they receive |
| Blocks.GetBlockidsByRank | tools/commbench/src/bench/placement_utils.h:74-88 | Exactly the rank's blocks, ascending |
| Blocks.MeshBlock.AddNeighborSendRecv | tools/commbench/src/amr/block.h:43-85 | Appends a send and a receive with the next two buffers; aborts exactly above 512 |
| Blocks.MeshBlock.AddNeighborVec | tools/commbench/src/bench/placement_utils.h:63-71 | Adds a whole list, every buffer used once |
| Blocks.CreateBlocksFromOmesh | tools/commbench/src/bench/placement_utils.h:29-60 | The blocks hold exactly the rank's plan; aborts exactly when a block has more than 256 neighbours |
| Boundary.BoundaryVariable.SetupPersistentMPI | tools/commbench/src/amr/bvar.cc:17-43 | Buffer sizes are message sizes; aborts exactly on a message of 32768 bytes or more to send |
| Boundary.BoundaryVariable.Round | tools/commbench/src/amr/bvar.cc:45-133 | Whatever the tests answer, every receive is started and completed once and every byte is counted once |
| CommRounds.NobodyStuck | tools/commbench/src/bench/comm_mesh.h:38-70 | While a rank has rounds left some rank can go on |
| CommRounds.SoundStays | tools/commbench/src/amr/bvar.cc:45-133 | No receive completes before its message was sent, kept by every step |
| CommRounds.RoundsComplete | tools/commbench/src/bench/comm_mesh.h:38-70 | Every run is finite, sound and can be completed; at the end everything sent was received |
| CommRounds.PlanIsBalanced | tools/commbench/src/bench/placement_utils.h:29-71 | A symmetric mesh has a balanced plan under every placement |
| CommRounds.MeshPlanIsBalanced | tools/commbench/src/bench/placement_utils.h:13-60 | End to end, for every refined mesh whose coordinates fit and every placement |
| Alias.AliasMethod.constructor | tools-common/alias_method.cc:24-71 | The finished tables represent the weights exactly; both queues empty, the loops end |
| Alias.PairUp | tools-common/alias_method.cc:44-53 | The pairing loop keeps every mass and ends with one queue empty |
| Alias.LeftoversAreFull | tools-common/alias_method.cc:55-69 | Then no under-full column is left and the others are exactly full |
| Alias.SampleIsExact | tools-common/alias_method.h:55-61 | Sample yields i exactly on rectangles, one per column, whose areas add up to i's share of the weights |
| Alias.AliasMethod.Draw | tools-common/alias_method.h:55-61 | On constructed tables: an index in range, and r2 lies in the interval of that index in r1's column |
| Messages.NoDeadlock | tools/ember-benchmarks/sweep3d.cc:174-274 | Programs whose calls match on a common clock always have a possible step that needs no buffering |
| Messages.InvariantKept | tools/ember-benchmarks/sweep3d.cc:174-274 | Messages in flight are what was sent less what was received, kept by every step |
| Messages.EveryRunCompletes | tools/ember-benchmarks/sweep3d.cc:174-274 | Runs are finite, never stuck, and leave no message behind |
| Sweep3D.CellIsRank | tools/ember-benchmarks/sweep3d.cc:24-28 | Every cell of the grid is the position of its rank |
| Sweep3D.XNeighbour | tools/ember-benchmarks/sweep3d.cc:142-143 | Going up in X moves one column and the neighbour points back |
| Sweep3D.YNeighbour | tools/ember-benchmarks/sweep3d.cc:145-146 | Going up in Y moves one row and the neighbour points back |
| Sweep3D.CallsByPosition | tools/ember-benchmarks/sweep3d.cc:174-274 | The calls of a step by coordinates: receive along both axes from the side of the sweep's corner, send to the other side |
| Sweep3D.SweepsFromCorner | tools/ember-benchmarks/sweep3d.cc:174-274 | Only the rank at (0, 0), (Px, 0), (Px, Py) or (0, Py), for the four sweeps in turn, receives nothing; only the one opposite sends nothing |
| Sweep3D.DirectionAt | tools/ember-benchmarks/sweep3d.cc:174-274 | Every iteration runs the four sweeps in this order, each for all k-blocks |
| Sweep3D.BlocksCount | tools/ember-benchmarks/sweep3d.cc:176-176 | nz / kba k-blocks |
| Sweep3D.ChannelsPair | tools/ember-benchmarks/sweep3d.cc:174-274 | On every channel sends and receives pair up one to one before every step |
| Sweep3D.TimeGrows | tools/ember-benchmarks/sweep3d.cc:174-274 | The clock runs forward in every rank's program, across sweeps and repeats |
| Sweep3D.SweepCompletes | tools/ember-benchmarks/sweep3d.cc:174-274 | No deadlock for any grid with positive sides, k-blocks and repeats, even if every send blocks until received |
| Sweep3D.GridSignDecides | tools/ember-benchmarks/sweep3d.cc:115-146 | The accepted grids: all peers exist if and only if pex is positive |
| Sweep3D.LoopEndsIff | tools/ember-benchmarks/sweep3d.cc:94-176 | The loops over k end if and only if the k-block size is positive or there are no planes |
| Sweep3D.RunRank | tools/ember-benchmarks/sweep3d.cc:174-274 | The nested loops make exactly the calls of the rank's program |

## Left out

- Rounding of floating-point sums, the single-precision constant `delta` and overflow of doubles: costs, `delta` and bounds
  are exact reals. `int` and 64-bit widths are modelled where the code narrows them.
- `std::sort` is any ordered permutation (ties in any order where keys may tie), `priority_queue::top` any minimal element,
  and iteration over hash sets any order.
- MPI, Kokkos, Gurobi, file and console I/O, command lines and logging: collectives and matching are abstract steps.
- `Mesh::Derefine` and `RefineToTargetLeafcnt`: the first asserts only that one sibling is a leaf, the second is random.
- The drain queue of incomplete sends, `LeastConnectedGraph`, caches, iteration tracking (its answers are a parameter of
  `Solver.AssignBlocks`), config parsing and policy names.
- Deprecated or throwing policies (SPT, round robin, skewed, hybrid) and `GetLPTRanks` versions 1 and 2.
- `OrderedMesh::Pack` and `Unpack`, `LogAssignmentStats` and the average of `ComputePolicyCosts`: easy members.
- Alias tables for all-zero weights: the source divides by zero.
- Cdp.AssignBlocksDP: needs at least as many blocks as ranks; with fewer, the source indexes before the first cumulative cost.
- Cplx.AssignBlocksV2: ends without a result when the start policy fails; in the source such a failure aborts the program.
- Cplx.StartPlacement: calls without a communicator; with one the source starts from parallel chunked CDP, which ends with
  the serial result (`ChunkedCdp.ParallelIsSerial`).
- Cplx.GetBlocksForRanks: needs a non-empty rank list, as the source's max_element does.
- Sweep3D.SweepCompletes: grids with positive sides; for the negative pairs the source also accepts see
  `Sweep3D.GridSignDecides`.
- Sweep3D.RunRank: a positive k-block size or no planes; otherwise the source's loops do not end (`Sweep3D.LoopEndsIff`).
- Mesh.Mesh.constructor: sizes up to 2^30; beyond that the source's shift overflows.
- Solver.Solver.AssignBlocks: the cost and rank lists have the same length.
- Extrapolate.ExtrapolateCosts: derefined blocks form whole sibling groups, as the mesh provides them.
