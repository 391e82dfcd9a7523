/** The iterative block-swapping solver (lb/src/lb-common/solver.h and rank.h). */
module Solver {
  import opened Placement
  import opened Exchange
  import Sorting
  import opened Sums

  // ----- sorting entries -----

  ghost predicate IsSorted(s: seq<Entry>)
  {
    forall i, j :: 0 <= i < j < |s| ==> EntryLe(s[i], s[j])
  }

  /** std::sort on pairs. */
  method Sort(s: seq<Entry>) returns (r: seq<Entry>)
    ensures multiset(r) == multiset(s) && IsSorted(r)
  {
    r := Sorting.SortBy(s, EntryLe);
  }

  // ----- what a rank holds -----

  /** Exactly the blocks that home puts on rank r, each once and with its cost. */
  ghost predicate HoldsExactly(blocks: seq<Entry>, costs: seq<real>, home: seq<int>, r: int)
    requires |costs| == |home|
  {
    forall e: Entry :: multiset(blocks)[e] == One(0 <= e.id < |home| && home[e.id] == r && e.cost == costs[e.id])
  }

  /** The entries after block b moved from src to dst. */
  lemma HoldsAfterMove(old_: seq<Entry>, new_: seq<Entry>, costs: seq<real>, home: seq<int>, r: int, b: nat, dst: int)
    requires |costs| == |home| && b < |home| && HoldsExactly(old_, costs, home, r)
    requires forall e: Entry :: multiset(new_)[e] + One(home[b] == r && e == Entry(costs[b], b))
                                == multiset(old_)[e] + One(dst == r && e == Entry(costs[b], b))
    ensures HoldsExactly(new_, costs, home[b := dst], r)
  {
    forall e: Entry ensures multiset(new_)[e]
                            == One(0 <= e.id < |home| && home[b := dst][e.id] == r && e.cost == costs[e.id]) {
      assert multiset(old_)[e] == One(0 <= e.id < |home| && home[e.id] == r && e.cost == costs[e.id]);
    }
  }

  /** A block and its rank, ordered first by the block (std::pair<int, int>). */
  datatype Location = Location(block: int, rank: int)

  predicate LocationLe(a: Location, b: Location)
  {
    a.block < b.block || (a.block == b.block && a.rank <= b.rank)
  }

  /** The blocks of a rank paired with the rank. */
  function Locations(blocks: seq<Entry>, r: int): (l: seq<Location>)
    ensures |l| == |blocks|
  {
    if |blocks| == 0 then []
    else Locations(blocks[..|blocks| - 1], r) + [Location(blocks[|blocks| - 1].id, r)]
  }

  /** l pairs a block with the rank home puts it on. */
  predicate IsLocation(l: Location, home: seq<int>)
  {
    0 <= l.block < |home| && l.rank == home[l.block]
  }

  class Rank {
    const rank: int
    var sorted: bool
    var cost: real
    var blocks: seq<Entry>

    constructor (rank: int)
      ensures this.rank == rank && blocks == [] && cost == 0.0 && !sorted
    {
      this.rank := rank;
      sorted, cost, blocks := false, 0.0, [];
    }

    ghost predicate Valid()
      reads this
    {
      sorted ==> IsSorted(blocks)
    }

    /** The rank's blocks and running cost are those of the placement. */
    ghost predicate Holds(costs: seq<real>, home: seq<int>)
      requires |costs| == |home|
      reads this
    {
      Valid() && HoldsExactly(blocks, costs, home, rank) && cost == Load(costs, home, rank)
    }

    method AddBlock(b: int, c: real)
      modifies this`blocks, this`cost, this`sorted
      ensures blocks == old(blocks) + [Entry(c, b)] && cost == old(cost) + c && !sorted && Valid()
    {
      blocks := blocks + [Entry(c, b)];
      cost := cost + c;
      sorted := false;
    }

    method EnsureSorted()
      requires Valid()
      modifies this`blocks, this`sorted
      ensures Valid() && sorted && multiset(blocks) == multiset(old(blocks))
    {
      if !sorted {
        blocks := Sort(blocks);
        sorted := true;
      }
    }

    /** Appends the rank's pairs of a block and the rank. */
    method GetBlockLoc(locations: seq<Location>) returns (r: seq<Location>)
      ensures r == locations + Locations(blocks, rank)
    {
      r := locations;
      for i := 0 to |blocks|
        invariant r == locations + Locations(blocks[..i], rank)
      {
        assert blocks[..i + 1][..i] == blocks[..i];
        r := r + [Location(blocks[i].id, rank)];
      }
      assert blocks[..|blocks|] == blocks;
    }

    /** Not ok where the source aborts: no blocks. */
    method GetLargestBlock() returns (b: int, c: real, ok: bool)
      requires Valid()
      modifies this`blocks, this`sorted
      ensures Valid() && multiset(blocks) == multiset(old(blocks)) && (ok <==> old(blocks) != [])
      ensures ok ==> Entry(c, b) in blocks && forall k :: 0 <= k < |blocks| ==> EntryLe(blocks[k], Entry(c, b))
    {
      b, c := -1, 0.0;
      EnsureSorted();
      assert |multiset(blocks)| == |multiset(old(blocks))|;
      ok := blocks != [];
      if ok {
        c, b := blocks[|blocks| - 1].cost, blocks[|blocks| - 1].id;
      }
    }

    method GetSmallestBlock() returns (b: int, c: real, ok: bool)
      requires Valid()
      modifies this`blocks, this`sorted
      ensures Valid() && multiset(blocks) == multiset(old(blocks)) && (ok <==> old(blocks) != [])
      ensures ok ==> Entry(c, b) in blocks && forall k :: 0 <= k < |blocks| ==> EntryLe(Entry(c, b), blocks[k])
    {
      b, c := -1, 0.0;
      EnsureSorted();
      assert |multiset(blocks)| == |multiset(old(blocks))|;
      ok := blocks != [];
      if ok {
        c, b := blocks[0].cost, blocks[0].id;
      }
    }

    /** Removes the first entry of block b; not ok where the source aborts: no such block. */
    method RemoveBlock(b: int) returns (c: real, ok: bool)
      requires Valid()
      modifies this`blocks, this`cost
      ensures Valid() && (ok <==> exists k :: 0 <= k < |old(blocks)| && old(blocks)[k].id == b)
      ensures ok ==> Entry(c, b) in old(blocks) && multiset(blocks) == multiset(old(blocks)) - multiset{Entry(c, b)}
      ensures ok ==> cost == old(cost) - c
    {
      var found := FindBlock(b);
      ok := found != -1;
      c := 0.0;
      if ok {
        c := blocks[found].cost;
        cost := cost - c;
        RemoveAt(blocks, found);
        blocks := blocks[..found] + blocks[found + 1..];
      }
    }

    method FindBlock(b: int) returns (found: int)
      ensures -1 <= found < |blocks| && (found != -1 ==> blocks[found].id == b)
      ensures found == -1 ==> forall k :: 0 <= k < |blocks| ==> blocks[k].id != b
    {
      for i := 0 to |blocks|
        invariant forall k :: 0 <= k < i ==> blocks[k].id != b
      {
        if blocks[i].id == b {
          return i;
        }
      }
      return -1;
    }
  }

  /** Erasing one entry. */
  lemma RemoveAt(blocks: seq<Entry>, i: nat)
    requires i < |blocks|
    ensures multiset(blocks[..i] + blocks[i + 1..]) == multiset(blocks) - multiset{blocks[i]}
    ensures IsSorted(blocks) ==> IsSorted(blocks[..i] + blocks[i + 1..])
  {
    assert blocks == blocks[..i] + [blocks[i]] + blocks[i + 1..];
  }

  // ----- the list of rank costs -----

  predicate IsListed(rc: seq<Entry>, costs: seq<real>, home: seq<int>, q: int)
    requires |costs| == |home|
  {
    Entry(Load(costs, home, q), q) in rc
  }

  /** Every rank once, with its load. */
  ghost predicate ListsLoads(rc: seq<Entry>, costs: seq<real>, home: seq<int>)
    requires |costs| == |home|
  {
    && (forall k :: 0 <= k < |rc| ==> 0 <= rc[k].id < |rc| && rc[k].cost == Load(costs, home, rc[k].id))
    && (forall q :: 0 <= q < |rc| ==> IsListed(rc, costs, home, q))
    && (forall i, j :: 0 <= i < j < |rc| ==> rc[i].id != rc[j].id)
  }

  lemma SortKeepsList(rc: seq<Entry>, sorted: seq<Entry>, costs: seq<real>, home: seq<int>)
    requires |costs| == |home| && ListsLoads(rc, costs, home) && multiset(sorted) == multiset(rc)
    ensures |sorted| == |rc| && ListsLoads(sorted, costs, home)
  {
    assert |multiset(sorted)| == |multiset(rc)|;
    forall k | 0 <= k < |sorted| ensures 0 <= sorted[k].id < |rc| && sorted[k].cost == Load(costs, home, sorted[k].id) {
      assert sorted[k] in multiset(sorted);
      assert sorted[k] in rc;
    }
    forall q | 0 <= q < |rc| ensures IsListed(sorted, costs, home, q) {
      assert IsListed(rc, costs, home, q);
      assert Entry(Load(costs, home, q), q) in multiset(rc);
    }
    forall i, j | 0 <= i < j < |sorted| ensures sorted[i].id != sorted[j].id {
      if sorted[i].id == sorted[j].id {
        Sorting.SequenceTwice(sorted, i, j);
        Sorting.DistinctOnce(rc, sorted[i]);
        assert false;
      }
    }
  }

  /** The ends of the sorted list are the most and the least loaded rank. */
  lemma EndsOfList(rc: seq<Entry>, costs: seq<real>, home: seq<int>)
    requires |costs| == |home| && |rc| > 0 && ListsLoads(rc, costs, home) && IsSorted(rc)
    ensures IsMostLoaded(costs, home, |rc|, rc[|rc| - 1].id)
    ensures IsLeastLoaded(costs, home, |rc|, rc[0].id)
  {
    forall q | 0 <= q < |rc|
      ensures EntryLe(Entry(Load(costs, home, q), q), rc[|rc| - 1]) && EntryLe(rc[0], Entry(Load(costs, home, q), q))
    {
      assert IsListed(rc, costs, home, q);
      var k :| 0 <= k < |rc| && rc[k] == Entry(Load(costs, home, q), q);
    }
  }

  /** Shifting the cost of a moved block between two entries keeps the list right. */
  lemma ListAfterMove(rc: seq<Entry>, rc': seq<Entry>, costs: seq<real>, home: seq<int>, b: nat, dst: int)
    requires |costs| == |home| && b < |home| && |rc'| == |rc| && ListsLoads(rc, costs, home)
    requires forall k :: 0 <= k < |rc| ==>
               rc'[k] == Entry(rc[k].cost - (if rc[k].id == home[b] then costs[b] else 0.0)
                               + (if rc[k].id == dst then costs[b] else 0.0), rc[k].id)
    ensures ListsLoads(rc', costs, home[b := dst])
  {
    forall r
      ensures Load(costs, home[b := dst], r)
              == Load(costs, home, r) - (if r == home[b] then costs[b] else 0.0) + (if r == dst then costs[b] else 0.0)
    {
      LoadOfMove(costs, home, b, dst, r);
    }
    var moved := home[b := dst];
    forall q | 0 <= q < |rc| ensures IsListed(rc', costs, moved, q) {
      assert IsListed(rc, costs, home, q);
      var k :| 0 <= k < |rc| && rc[k] == Entry(Load(costs, home, q), q);
      assert rc'[k] == Entry(Load(costs, home[b := dst], q), q);
    }
  }

  // ----- the solver -----

  ghost predicate RanksHold(ranks: seq<Rank>, costs: seq<real>, home: seq<int>)
    requires |costs| == |home|
    reads ranks
  {
    forall r :: 0 <= r < |ranks| ==> ranks[r].rank == r && ranks[r].Holds(costs, home)
  }

  /** A rank holds block b exactly when home puts b there. */
  lemma HoldsBlock(blocks: seq<Entry>, costs: seq<real>, home: seq<int>, r: int, b: nat)
    requires |costs| == |home| && HoldsExactly(blocks, costs, home, r) && b < |home| && home[b] == r
    ensures Entry(costs[b], b) in blocks
  {
    assert multiset(blocks)[Entry(costs[b], b)] == 1;
  }

  lemma HeldIsHome(blocks: seq<Entry>, costs: seq<real>, home: seq<int>, r: int, e: Entry)
    requires |costs| == |home| && HoldsExactly(blocks, costs, home, r) && e in blocks
    ensures 0 <= e.id < |home| && home[e.id] == r && e.cost == costs[e.id]
  {
    assert multiset(blocks)[e] > 0;
  }

  /** The pairs of one rank. */
  lemma {:induction false} LocationsHold(blocks: seq<Entry>, costs: seq<real>, home: seq<int>, r: int, l: Location)
    requires |costs| == |home|
    requires forall k :: 0 <= k < |blocks| ==> IsHeld(blocks[k], costs, home, r)
    ensures multiset(Locations(blocks, r))[l]
            == if IsLocation(l, home) && l.rank == r then multiset(blocks)[Entry(costs[l.block], l.block)] else 0
  {
    if |blocks| > 0 {
      var n := |blocks| - 1;
      LocationsHold(blocks[..n], costs, home, r, l);
      assert blocks == blocks[..n] + [blocks[n]];
      PairOfBlock(blocks[n], costs, home, r, l);
    }
  }

  predicate IsHeld(block: Entry, costs: seq<real>, home: seq<int>, r: int)
    requires |costs| == |home|
  {
    0 <= block.id < |home| && home[block.id] == r && block.cost == costs[block.id]
  }

  lemma PairOfBlock(block: Entry, costs: seq<real>, home: seq<int>, r: int, l: Location)
    requires |costs| == |home| && IsHeld(block, costs, home, r)
    ensures l == Location(block.id, r)
            <==> IsLocation(l, home) && l.rank == r && Entry(costs[l.block], l.block) == block
  {
  }

  lemma RankLocations(blocks: seq<Entry>, costs: seq<real>, home: seq<int>, r: int, l: Location)
    requires |costs| == |home| && HoldsExactly(blocks, costs, home, r)
    ensures multiset(Locations(blocks, r))[l] == One(IsLocation(l, home) && l.rank == r)
  {
    forall k | 0 <= k < |blocks| ensures IsHeld(blocks[k], costs, home, r) {
      HeldIsHome(blocks, costs, home, r, blocks[k]);
    }
    LocationsHold(blocks, costs, home, r, l);
    if IsLocation(l, home) && l.rank == r {
      assert multiset(blocks)[Entry(costs[l.block], l.block)] == 1;
    }
  }

  /** All pairs of a block and its rank, in block order. */
  function AllLocations(home: seq<int>, n: nat): (all: seq<Location>)
    requires n <= |home|
    ensures |all| == n && forall b :: 0 <= b < n ==> all[b] == Location(b, home[b])
  {
    seq(n, b requires 0 <= b < n => Location(b, home[b]))
  }

  lemma {:induction false} AllLocationsHold(home: seq<int>, n: nat, l: Location)
    requires n <= |home|
    ensures multiset(AllLocations(home, n))[l] == One(IsLocation(l, home) && l.block < n)
  {
    if n > 0 {
      AllLocationsHold(home, n - 1, l);
      assert AllLocations(home, n) == AllLocations(home, n - 1) + [Location(n - 1, home[n - 1])];
    }
  }

  /** The pairs of the first k ranks. */
  ghost predicate IsGathered(locations: seq<Location>, home: seq<int>, k: int)
  {
    forall l: Location :: multiset(locations)[l] == One(IsLocation(l, home) && l.rank < k)
  }

  lemma GatherNext(before: seq<Location>, blocks: seq<Entry>, costs: seq<real>, home: seq<int>, k: int)
    requires |costs| == |home| && HoldsExactly(blocks, costs, home, k) && IsGathered(before, home, k)
    ensures IsGathered(before + Locations(blocks, k), home, k + 1)
  {
    forall l: Location
      ensures multiset(before + Locations(blocks, k))[l] == One(IsLocation(l, home) && l.rank < k + 1)
    {
      RankLocations(blocks, costs, home, k, l);
      assert multiset(before)[l] == One(IsLocation(l, home) && l.rank < k);
    }
  }

  /** Sorted by block, the pairs of all ranks list every block's rank. */
  lemma GatheredIsAll(locations: seq<Location>, sorted: seq<Location>, home: seq<int>, n: nat)
    requires IsPlacement(home, |home|, n) && IsGathered(locations, home, n)
    requires multiset(sorted) == multiset(locations) && Sorting.SortedBy(sorted, LocationLe)
    ensures sorted == AllLocations(home, |home|) && |locations| == |home|
  {
    var all := AllLocations(home, |home|);
    forall l: Location ensures multiset(sorted)[l] == multiset(all)[l] {
      AllLocationsHold(home, |home|, l);
      assert multiset(locations)[l] == One(IsLocation(l, home) && l.rank < n);
    }
    Sorting.SortedByUnique(sorted, all, LocationLe);
    assert |multiset(sorted)| == |multiset(locations)|;
  }

  // ----- runs -----

  function AfterSwaps(home: seq<int>, swaps: seq<Swap>): (h: seq<int>)
    ensures |h| == |home|
  {
    if |swaps| == 0 then home else Applied(AfterSwaps(home, swaps[..|swaps| - 1]), swaps[|swaps| - 1])
  }

  /** Every move is the one the solver chooses on the placement it finds. */
  ghost predicate AreChosen(costs: seq<real>, home: seq<int>, n: int, swaps: seq<Swap>)
    requires |costs| == |home|
  {
    forall i :: 0 <= i < |swaps| ==> IsChosen(costs, AfterSwaps(home, swaps[..i]), n, swaps[i])
  }

  lemma ChosenNext(costs: seq<real>, home: seq<int>, n: int, swaps: seq<Swap>, swap: Swap)
    requires |costs| == |home| && AreChosen(costs, home, n, swaps) && IsChosen(costs, AfterSwaps(home, swaps), n, swap)
    ensures AreChosen(costs, home, n, swaps + [swap])
    ensures AfterSwaps(home, swaps + [swap]) == Applied(AfterSwaps(home, swaps), swap)
  {
    var more := swaps + [swap];
    assert more[..|swaps|] == swaps;
    forall i | 0 <= i < |more| ensures IsChosen(costs, AfterSwaps(home, more[..i]), n, more[i]) {
      if i < |swaps| {
        assert more[..i] == swaps[..i];
      }
    }
  }

  lemma EmptyIsAbsent(blocks: seq<Entry>, costs: seq<real>, home: seq<int>, r: int)
    requires |costs| == |home| && HoldsExactly(blocks, costs, home, r)
    ensures blocks == [] <==> r !in home
  {
    if r in home {
      var b :| 0 <= b < |home| && home[b] == r;
      HoldsBlock(blocks, costs, home, r, b);
    }
    if blocks != [] {
      HeldIsHome(blocks, costs, home, r, blocks[0]);
    }
  }

  lemma LastIsLargest(blocks: seq<Entry>, costs: seq<real>, home: seq<int>, r: int, b: int, c: real)
    requires |costs| == |home| && HoldsExactly(blocks, costs, home, r) && Entry(c, b) in blocks
    requires forall k :: 0 <= k < |blocks| ==> EntryLe(blocks[k], Entry(c, b))
    ensures IsLargestOn(costs, home, r, b) && c == costs[b]
  {
    HeldIsHome(blocks, costs, home, r, Entry(c, b));
    forall j | 0 <= j < |home| && home[j] == r ensures EntryLe(Entry(costs[j], j), Entry(costs[b], b)) {
      HoldsBlock(blocks, costs, home, r, j);
    }
  }

  lemma FirstIsSmallest(blocks: seq<Entry>, costs: seq<real>, home: seq<int>, r: int, b: int, c: real)
    requires |costs| == |home| && HoldsExactly(blocks, costs, home, r) && Entry(c, b) in blocks
    requires forall k :: 0 <= k < |blocks| ==> EntryLe(Entry(c, b), blocks[k])
    ensures IsSmallestOn(costs, home, r, b) && c == costs[b]
  {
    HeldIsHome(blocks, costs, home, r, Entry(c, b));
    forall j | 0 <= j < |home| && home[j] == r ensures EntryLe(Entry(costs[b], b), Entry(costs[j], j)) {
      HoldsBlock(blocks, costs, home, r, j);
    }
  }

  /** With a positive total the most loaded rank holds a block. */
  lemma MostLoadedHasBlocks(costs: seq<real>, home: seq<int>, n: nat, r: int)
    requires IsPlacement(home, |costs|, n) && Nonnegative(costs) && Sum(costs) > 0.0 && IsMostLoaded(costs, home, n, r)
    ensures r in home
  {
    if r !in home {
      LoadOfAbsentRank(costs, home, r);
      forall q | 0 <= q < n ensures Load(costs, home, q) <= 0.0 {
        assert EntryLe(Entry(Load(costs, home, q), q), Entry(Load(costs, home, r), r));
      }
      AverageIsLowerBound(costs, home, n, 0.0);
      TimesIsProduct(n, 0.0);
    }
  }

  // ----- the branches of an iteration -----

  lemma GiveLargest(costs: seq<real>, home: seq<int>, n: int, b: int, lb: int, sb: int)
    requires |costs| == |home| && IsMostLoaded(costs, home, n, lb) && IsLeastLoaded(costs, home, n, sb)
    requires sb in home && IsLargestOn(costs, home, lb, b) && costs[b] < Load(costs, home, lb) - Load(costs, home, sb)
    ensures IsChosen(costs, home, n, Give(b, lb, sb))
  {
  }

  lemma GiveSmallest(costs: seq<real>, home: seq<int>, n: int, big: int, b: int, lb: int, sb: int)
    requires |costs| == |home| && IsMostLoaded(costs, home, n, lb) && IsLeastLoaded(costs, home, n, sb)
    requires sb in home && IsLargestOn(costs, home, lb, big) && IsSmallestOn(costs, home, lb, b)
    requires costs[b] < Load(costs, home, lb) - Load(costs, home, sb) <= costs[big]
    ensures IsChosen(costs, home, n, Give(b, lb, sb))
  {
    assert HasBigBlock(costs, home, lb, Load(costs, home, lb) - Load(costs, home, sb));
  }

  lemma TradeEnds(costs: seq<real>, home: seq<int>, n: int, big: int, least: int, small: int, lb: int, sb: int)
    requires |costs| == |home| && IsMostLoaded(costs, home, n, lb) && IsLeastLoaded(costs, home, n, sb)
    requires sb in home && IsLargestOn(costs, home, lb, big) && IsSmallestOn(costs, home, lb, least)
    requires IsSmallestOn(costs, home, sb, small)
    requires Load(costs, home, lb) - Load(costs, home, sb) <= costs[big]
    requires Load(costs, home, lb) - Load(costs, home, sb) <= costs[least]
    ensures IsChosen(costs, home, n, Trade(big, small, lb, sb))
  {
    assert HasNoSmallBlock(costs, home, lb, Load(costs, home, lb) - Load(costs, home, sb));
  }

  /** The comparisons of IterateUtilHybrid. */
  method Choose(ghost costs: seq<real>, ghost home: seq<int>, ghost n: int, lbb: int, lbbCost: real, lbs: int,
                lbsCost: real, sbs: int, lb: int, sb: int, curDiff: real)
    returns (swap: Swap)
    requires |costs| == |home| && IsMostLoaded(costs, home, n, lb) && IsLeastLoaded(costs, home, n, sb) && sb in home
    requires IsLargestOn(costs, home, lb, lbb) && lbbCost == costs[lbb]
    requires IsSmallestOn(costs, home, lb, lbs) && lbsCost == costs[lbs]
    requires IsSmallestOn(costs, home, sb, sbs)
    requires curDiff == Load(costs, home, lb) - Load(costs, home, sb)
    ensures IsChosen(costs, home, n, swap) && swap.src == lb && swap.dst == sb
  {
    if lbbCost < curDiff {
      GiveLargest(costs, home, n, lbb, lb, sb);
      swap := Give(lbb, lb, sb);
    } else if lbsCost < curDiff {
      GiveSmallest(costs, home, n, lbb, lbs, lb, sb);
      swap := Give(lbs, lb, sb);
    } else {
      TradeEnds(costs, home, n, lbb, lbs, sbs, lb, sb);
      swap := Trade(lbb, sbs, lb, sb);
    }
  }

  class Solver {
    var nranks: int
    var ranks: seq<Rank>
    var rankCosts: seq<Entry>

    constructor ()
      ensures nranks == 0 && ranks == [] && rankCosts == []
    {
      nranks, ranks, rankCosts := 0, [], [];
    }

    /** The state while solving: the blocks are partitioned among the ranks as home says, and all costs are true. */
    ghost predicate Valid(costs: seq<real>, home: seq<int>)
      requires |costs| == |home|
      reads this, ranks
    {
      && nranks == |ranks| == |rankCosts| > 0 && IsPlacement(home, |costs|, nranks)
      && RanksHold(ranks, costs, home) && ListsLoads(rankCosts, costs, home)
    }

    method GetLargestBlock(ghost costs: seq<real>, ghost home: seq<int>, r: int) returns (b: int, c: real, ok: bool)
      requires |costs| == |home| && Valid(costs, home) && 0 <= r < nranks
      modifies ranks
      ensures Valid(costs, home) && (ok <==> r in home)
      ensures ok ==> IsLargestOn(costs, home, r, b) && c == costs[b]
    {
      EmptyIsAbsent(ranks[r].blocks, costs, home, r);
      b, c, ok := ranks[r].GetLargestBlock();
      assert HoldsExactly(ranks[r].blocks, costs, home, r);
      if ok {
        LastIsLargest(ranks[r].blocks, costs, home, r, b, c);
      }
    }

    method GetSmallestBlock(ghost costs: seq<real>, ghost home: seq<int>, r: int) returns (b: int, c: real, ok: bool)
      requires |costs| == |home| && Valid(costs, home) && 0 <= r < nranks
      modifies ranks
      ensures Valid(costs, home) && (ok <==> r in home)
      ensures ok ==> IsSmallestOn(costs, home, r, b) && c == costs[b]
    {
      EmptyIsAbsent(ranks[r].blocks, costs, home, r);
      b, c, ok := ranks[r].GetSmallestBlock();
      assert HoldsExactly(ranks[r].blocks, costs, home, r);
      if ok {
        FirstIsSmallest(ranks[r].blocks, costs, home, r, b, c);
      }
    }

    /** Moves a block; the two asserted entries of the cost list are those of the two ranks. */
    method TransferBlock(ghost costs: seq<real>, ghost home: seq<int>, b: int, src: int, dst: int, si: int, di: int)
      requires |costs| == |home| && Valid(costs, home)
      requires 0 <= b < |home| && home[b] == src && 0 <= dst < nranks
      requires 0 <= si < |rankCosts| && 0 <= di < |rankCosts| && rankCosts[si].id == src && rankCosts[di].id == dst
      modifies this`rankCosts, ranks
      ensures Valid(costs, home[b := dst]) && |rankCosts| == |old(rankCosts)|
      ensures forall k :: 0 <= k < |rankCosts| ==> rankCosts[k].id == old(rankCosts)[k].id
    {
      var c := MoveBetweenRanks(costs, home, b, src, dst);
      assert rankCosts[si].id == src;
      assert rankCosts[di].id == dst;
      ghost var before := rankCosts;
      rankCosts := rankCosts[si := Entry(rankCosts[si].cost - c, rankCosts[si].id)];
      rankCosts := rankCosts[di := Entry(rankCosts[di].cost + c, rankCosts[di].id)];
      ListAfterMove(before, rankCosts, costs, home, b, dst);
    }

    /** Between the removal and the addition block b is on no rank: its home is -1. */
    method TakeBlock(ghost costs: seq<real>, ghost home: seq<int>, b: int, src: int) returns (c: real)
      requires |costs| == |home| && RanksHold(ranks, costs, home)
      requires 0 <= b < |home| && home[b] == src && 0 <= src < |ranks|
      modifies ranks[src]
      ensures RanksHold(ranks, costs, home[b := -1]) && c == costs[b]
    {
      ghost var blocks := ranks[src].blocks;
      HoldsBlock(blocks, costs, home, src, b);
      var ok;
      c, ok := ranks[src].RemoveBlock(b);
      assert ok;
      HeldIsHome(blocks, costs, home, src, Entry(c, b));
      HoldsAfterMove(blocks, ranks[src].blocks, costs, home, src, b, -1);
      OthersHold(costs, home, src, b, -1);
    }

    method PutBlock(ghost costs: seq<real>, ghost home: seq<int>, b: int, c: real, dst: int)
      requires |costs| == |home| && RanksHold(ranks, costs, home)
      requires 0 <= b < |home| && home[b] == -1 && c == costs[b] && 0 <= dst < |ranks|
      modifies ranks[dst]
      ensures RanksHold(ranks, costs, home[b := dst])
    {
      ghost var blocks := ranks[dst].blocks;
      ranks[dst].AddBlock(b, c);
      HoldsAfterMove(blocks, ranks[dst].blocks, costs, home, dst, b, dst);
      OthersHold(costs, home, dst, b, dst);
    }

    /** A block that comes to, or leaves, rank changed does not concern the others. */
    lemma OthersHold(costs: seq<real>, home: seq<int>, changed: int, b: nat, to: int)
      requires |costs| == |home| && b < |home| && (home[b] == changed || to == changed)
      requires 0 <= changed && (home[b] == -1 || to == -1)
      requires forall r :: 0 <= r < |ranks| && r != changed ==> ranks[r].Holds(costs, home) && ranks[r].rank == r
      ensures forall r :: 0 <= r < |ranks| && r != changed ==> ranks[r].Holds(costs, home[b := to])
      ensures Load(costs, home[b := to], changed)
              == Load(costs, home, changed) - (if home[b] == changed then costs[b] else 0.0)
                 + (if to == changed then costs[b] else 0.0)
    {
      var moved := home[b := to];
      LoadOfMove(costs, home, b, to, changed);
      forall r | 0 <= r < |ranks| && r != changed ensures ranks[r].Holds(costs, moved) {
        HoldsAfterMove(ranks[r].blocks, ranks[r].blocks, costs, home, r, b, to);
        LoadOfMove(costs, home, b, to, r);
      }
    }

    method MoveBetweenRanks(ghost costs: seq<real>, ghost home: seq<int>, b: int, src: int, dst: int) returns (c: real)
      requires |costs| == |home| && RanksHold(ranks, costs, home)
      requires 0 <= b < |home| && home[b] == src && 0 <= src < |ranks| && 0 <= dst < |ranks|
      modifies ranks
      ensures RanksHold(ranks, costs, home[b := dst]) && c == costs[b]
    {
      c := TakeBlock(costs, home, b, src);
      PutBlock(costs, home[b := -1], b, c, dst);
      assert home[b := -1][b := dst] == home[b := dst];
    }

    /** One move; not ok where the source aborts: the most loaded rank holds no block. */
    method Iterate(ghost costs: seq<real>, ghost home: seq<int>) returns (ghost swap: Swap, ok: bool)
      requires |costs| == |home| && Valid(costs, home)
      modifies this`rankCosts, ranks
      ensures IsMostLoaded(costs, home, nranks, swap.src) && (ok <==> swap.src in home)
      ensures ok ==> IsChosen(costs, home, nranks, swap) && Valid(costs, Applied(home, swap))
    {
      var lb, sb := SortRanks(costs, home);
      EmptyIsAbsent(ranks[sb].blocks, costs, home, sb);
      if ranks[sb].blocks != [] {
        swap, ok := IterateUtilHybrid(costs, home, sb, lb);
      } else {
        swap, ok := IterateUtilOneWay(costs, home, sb, lb);
      }
    }

    method SortRanks(ghost costs: seq<real>, ghost home: seq<int>) returns (lb: int, sb: int)
      requires |costs| == |home| && Valid(costs, home)
      modifies this`rankCosts
      ensures Valid(costs, home) && AreEnds(costs, home, sb, lb)
    {
      ghost var before := rankCosts;
      rankCosts := Sort(rankCosts);
      SortKeepsList(before, rankCosts, costs, home);
      EndsOfList(rankCosts, costs, home);
      lb, sb := rankCosts[nranks - 1].id, rankCosts[0].id;
    }

    /** The ends of the cost list are the ranks the iteration works on. */
    ghost predicate AreEnds(costs: seq<real>, home: seq<int>, sb: int, lb: int)
      requires |costs| == |home|
      reads this
    {
      && |rankCosts| == nranks > 0 && rankCosts[nranks - 1].id == lb && rankCosts[0].id == sb
      && IsMostLoaded(costs, home, nranks, lb) && IsLeastLoaded(costs, home, nranks, sb)
    }

    method IterateUtilOneWay(ghost costs: seq<real>, ghost home: seq<int>, sb: int, lb: int)
      returns (ghost swap: Swap, ok: bool)
      requires |costs| == |home| && Valid(costs, home) && AreEnds(costs, home, sb, lb) && sb !in home
      modifies this`rankCosts, ranks
      ensures swap.src == lb && (ok <==> lb in home)
      ensures ok ==> IsChosen(costs, home, nranks, swap) && Valid(costs, Applied(home, swap))
    {
      var b, c;
      b, c, ok := GetLargestBlock(costs, home, lb);
      swap := Give(b, lb, sb);
      if ok {
        TransferBlock(costs, home, b, lb, sb, nranks - 1, 0);
      }
    }

    method IterateUtilHybrid(ghost costs: seq<real>, ghost home: seq<int>, sb: int, lb: int)
      returns (ghost swap: Swap, ok: bool)
      requires |costs| == |home| && Valid(costs, home) && AreEnds(costs, home, sb, lb) && sb in home
      modifies this`rankCosts, ranks
      ensures swap.src == lb && (ok <==> lb in home)
      ensures ok ==> IsChosen(costs, home, nranks, swap) && Valid(costs, Applied(home, swap))
    {
      var chosen;
      chosen, ok := Decide(costs, home, sb, lb);
      swap := chosen;
      if ok {
        Carry(costs, home, chosen);
      }
    }

    method Decide(ghost costs: seq<real>, ghost home: seq<int>, sb: int, lb: int) returns (swap: Swap, ok: bool)
      requires |costs| == |home| && Valid(costs, home) && AreEnds(costs, home, sb, lb) && sb in home
      modifies ranks
      ensures Valid(costs, home) && swap.src == lb && swap.dst == sb && (ok <==> lb in home)
      ensures ok ==> IsChosen(costs, home, nranks, swap)
    {
      var lbb, lbbCost, lbs, lbsCost, sbs;
      lbb, lbbCost, lbs, lbsCost, sbs, ok := GetEnds(costs, home, sb, lb);
      swap := Give(lbb, lb, sb);
      if ok {
        var curDiff := ranks[lb].cost - ranks[sb].cost;
        swap := Choose(costs, home, nranks, lbb, lbbCost, lbs, lbsCost, sbs, lb, sb, curDiff);
      }
    }

    /** SWAP1, SWAP2 and SWAP3: the transfers of the chosen move. */
    method Carry(ghost costs: seq<real>, ghost home: seq<int>, swap: Swap)
      requires |costs| == |home| && Valid(costs, home) && AreEnds(costs, home, swap.dst, swap.src)
      requires IsChosen(costs, home, nranks, swap)
      modifies this`rankCosts, ranks
      ensures Valid(costs, Applied(home, swap))
    {
      match swap
      case Give(b, lb, sb) =>
        TransferBlock(costs, home, b, lb, sb, nranks - 1, 0);
      case Trade(big, small, lb, sb) =>
        TradeBlocks(costs, home, big, small, lb, sb);
    }

    /** The largest and smallest block of the most loaded rank and the smallest of the other. */
    method GetEnds(ghost costs: seq<real>, ghost home: seq<int>, sb: int, lb: int)
      returns (lbb: int, lbbCost: real, lbs: int, lbsCost: real, sbs: int, ok: bool)
      requires |costs| == |home| && Valid(costs, home) && 0 <= sb < nranks && 0 <= lb < nranks && sb in home
      modifies ranks
      ensures Valid(costs, home) && (ok <==> lb in home)
      ensures ok ==> IsLargestOn(costs, home, lb, lbb) && lbbCost == costs[lbb]
      ensures ok ==> IsSmallestOn(costs, home, lb, lbs) && lbsCost == costs[lbs]
      ensures ok ==> IsSmallestOn(costs, home, sb, sbs)
    {
      lbs, lbsCost, sbs := -1, 0.0, -1;
      lbb, lbbCost, ok := GetLargestBlock(costs, home, lb);
      if !ok {
        return;
      }
      var sbb, sbbCost, sbsCost;
      lbs, lbsCost, ok := GetSmallestBlock(costs, home, lb);
      sbb, sbbCost, ok := GetLargestBlock(costs, home, sb);
      sbs, sbsCost, ok := GetSmallestBlock(costs, home, sb);
    }

    method TradeBlocks(ghost costs: seq<real>, ghost home: seq<int>, big: int, small: int, lb: int, sb: int)
      requires |costs| == |home| && Valid(costs, home) && AreEnds(costs, home, sb, lb)
      requires 0 <= big < |home| && home[big] == lb && 0 <= small < |home| && home[small] == sb
      modifies this`rankCosts, ranks
      ensures Valid(costs, Applied(home, Trade(big, small, lb, sb)))
    {
      TransferBlock(costs, home, big, lb, sb, nranks - 1, 0);
      TransferBlock(costs, home[big := sb], small, sb, lb, 0, nranks - 1);
    }

    // ----- setting up and reading back -----

    /** Not ok where the source aborts: a rank out of range (a negative one becomes a large unsigned number). */
    method InitializeRanks(n: int, costs: seq<real>, ranklist: seq<int>) returns (ok: bool)
      requires 0 < n && |costs| == |ranklist|
      modifies this
      ensures ok <==> IsPlacement(ranklist, |costs|, n)
      ensures ok ==> Valid(costs, ranklist) && nranks == n && fresh(ranks)
    {
      ranks, rankCosts, nranks := [], [], n;
      ranks := CreateRanks(n);
      for b := 0 to |costs|
        invariant fresh(ranks) && |ranks| == n && nranks == n && rankCosts == []
        invariant RanksHold(ranks, costs[..b], ranklist[..b])
        invariant forall k :: 0 <= k < b ==> 0 <= ranklist[k] < n
      {
        if ranklist[b] < 0 || ranklist[b] >= n {
          return false;
        }
        AddNext(costs, ranklist, b);
      }
      assert costs[..|costs|] == costs && ranklist[..|costs|] == ranklist;
      ListCosts(costs, ranklist);
      ok := true;
    }

    static method CreateRanks(n: nat) returns (ranks: seq<Rank>)
      ensures fresh(ranks) && |ranks| == n && RanksHold(ranks, [], [])
    {
      ranks := [];
      for r := 0 to n
        invariant fresh(ranks) && |ranks| == r && RanksHold(ranks, [], [])
      {
        var rank := new Rank(r);
        ranks := ranks + [rank];
      }
    }

    method AddNext(costs: seq<real>, ranklist: seq<int>, b: nat)
      requires |costs| == |ranklist| && b < |costs| && 0 <= ranklist[b] < |ranks|
      requires RanksHold(ranks, costs[..b], ranklist[..b])
      modifies ranks
      ensures RanksHold(ranks, costs[..b + 1], ranklist[..b + 1])
    {
      ghost var rs := ranks;
      ghost var blocks := seq(|rs|, r requires 0 <= r < |rs| reads rs => rs[r].blocks);
      ranks[ranklist[b]].AddBlock(b, costs[b]);
      forall r | 0 <= r < |rs| ensures rs[r].rank == r && rs[r].Holds(costs[..b + 1], ranklist[..b + 1]) {
        HoldsNext(blocks[r], rs[r].blocks, costs, ranklist, b, r);
      }
    }

    method ListCosts(ghost costs: seq<real>, ghost home: seq<int>)
      requires |costs| == |home| && RanksHold(ranks, costs, home) && rankCosts == []
      modifies this`rankCosts
      ensures |rankCosts| == |ranks| && ListsLoads(rankCosts, costs, home)
    {
      for r := 0 to |ranks|
        invariant |rankCosts| == r
        invariant forall k :: 0 <= k < r ==> rankCosts[k] == Entry(Load(costs, home, k), k)
      {
        rankCosts := rankCosts + [Entry(ranks[r].cost, ranks[r].rank)];
      }
      forall q | 0 <= q < |rankCosts| ensures IsListed(rankCosts, costs, home, q) {
        assert rankCosts[q] == Entry(Load(costs, home, q), q);
      }
    }

    /** The average and the maximum of the rank costs, 0 if all are negative. */
    method GetRankStats(ghost costs: seq<real>, ghost home: seq<int>) returns (avgCost: real, maxCost: real)
      requires |costs| == |home| && Valid(costs, home)
      ensures avgCost * nranks as real == Sum(costs)
      ensures maxCost >= 0.0 && MaxLoadAtMost(costs, home, nranks, maxCost)
      ensures maxCost == 0.0 || exists r :: 0 <= r < nranks && Load(costs, home, r) == maxCost
    {
      avgCost, maxCost := 0.0, 0.0;
      ghost var top := -1;
      for r := 0 to |ranks|
        invariant avgCost == TotalLoad(costs, home, r)
        invariant maxCost >= 0.0 && MaxLoadAtMost(costs, home, r, maxCost)
        invariant maxCost == 0.0 || (0 <= top < r && Load(costs, home, top) == maxCost)
      {
        avgCost := avgCost + ranks[r].cost;
        assert ranks[r].cost == Load(costs, home, r);
        if ranks[r].cost > maxCost {
          maxCost := ranks[r].cost;
          top := r;
        }
      }
      LoadsAddUp(costs, home, nranks);
      avgCost := avgCost / nranks as real;
    }

    /** Writes every block's rank; not ok where the source aborts: another number of blocks. */
    method UpdateRanklist(ghost costs: seq<real>, ghost home: seq<int>, ranklist: array<int>) returns (ok: bool)
      requires |costs| == |home| && Valid(costs, home)
      modifies ranklist
      ensures ok <==> ranklist.Length == |home|
      ensures ranklist[..] == if ok then home else old(ranklist[..])
    {
      var locations: seq<Location> := [];
      for k := 0 to |ranks|
        invariant IsGathered(locations, home, k) && ranklist[..] == old(ranklist[..])
      {
        GatherNext(locations, ranks[k].blocks, costs, home, k);
        locations := ranks[k].GetBlockLoc(locations);
      }
      var sorted := Sorting.SortBy(locations, LocationLe);
      GatheredIsAll(locations, sorted, home, nranks);
      ok := |locations| == ranklist.Length;
      if ok {
        for i := 0 to |sorted|
          invariant forall k :: 0 <= k < i ==> ranklist[k] == home[k]
        {
          ranklist[i] := sorted[i].rank;
        }
        assert ranklist[..] == home;
      }
    }

    /** Iterates and keeps the record of the run. */
    method Step(ghost costs: seq<real>, ghost home: seq<int>, ghost swaps: seq<Swap>)
      returns (ghost swaps': seq<Swap>, ok: bool)
      requires |costs| == |home| && AreChosen(costs, home, nranks, swaps) && Valid(costs, AfterSwaps(home, swaps))
      modifies this`rankCosts, ranks
      ensures ok ==> |swaps'| == |swaps| + 1 && AreChosen(costs, home, nranks, swaps')
      ensures ok ==> Valid(costs, AfterSwaps(home, swaps'))
      ensures Nonnegative(costs) && Sum(costs) > 0.0 ==> ok
    {
      ghost var swap;
      ghost var now := AfterSwaps(home, swaps);
      ghost var n := nranks;
      swap, ok := Iterate(costs, now);
      swaps' := swaps + [swap];
      if ok {
        ChosenNext(costs, home, n, swaps, swap);
      } else if Nonnegative(costs) && Sum(costs) > 0.0 {
        MostLoadedHasBlocks(costs, now, n, swap.src);
      }
    }

    /**
     The first AssignBlocks: at most niters moves; stops are the answers of the iteration tracker. Not ok where the
     source aborts.
     */
    method AssignBlocks(costs: seq<real>, ranklist: array<int>, n: int, niters: nat, stops: seq<bool>)
      returns (ok: bool, ghost swaps: seq<Swap>)
      requires 0 < n && |costs| == ranklist.Length && |stops| >= niters
      modifies this, ranklist
      ensures ok ==> |swaps| <= niters && AreChosen(costs, old(ranklist[..]), n, swaps)
                     && ranklist[..] == AfterSwaps(old(ranklist[..]), swaps)
      ensures !ok ==> ranklist[..] == old(ranklist[..])
      ensures IsPlacement(old(ranklist[..]), |costs|, n) && Nonnegative(costs) && Sum(costs) > 0.0 ==> ok
      ensures ok ==> IsPlacement(ranklist[..], |costs|, n)
    {
      ghost var home := ranklist[..];
      swaps := [];
      ok := InitializeRanks(n, costs, ranklist[..]);
      if !ok {
        return;
      }
      for iter := 0 to niters
        invariant nranks == n && fresh(ranks) && |swaps| <= iter && ranklist[..] == home
        invariant AreChosen(costs, home, n, swaps) && Valid(costs, AfterSwaps(home, swaps))
      {
        swaps, ok := Step(costs, home, swaps);
        if !ok {
          return;
        }
        var avgCost, maxCost := GetRankStats(costs, AfterSwaps(home, swaps));
        if stops[iter] {
          break;
        }
      }
      ok := UpdateRanklist(costs, AfterSwaps(home, swaps), ranklist);
    }

    /**
     The second AssignBlocks: moves until the maximum is at most the target or maxIters moves are made. Not ok where the
     source aborts.
     */
    method AssignBlocksToTarget(costs: seq<real>, ranklist: array<int>, n: int, target: real, maxIters: nat)
      returns (ok: bool, niters: int, ghost swaps: seq<Swap>)
      requires 0 < n && |costs| == ranklist.Length && 0 < maxIters
      modifies this, ranklist
      ensures ok ==> |swaps| == niters <= maxIters && AreChosen(costs, old(ranklist[..]), n, swaps)
                     && ranklist[..] == AfterSwaps(old(ranklist[..]), swaps) && IsPlacement(ranklist[..], |costs|, n)
      ensures ok ==> niters == maxIters || MaxLoadAtMost(costs, ranklist[..], n, target)
      ensures !ok ==> ranklist[..] == old(ranklist[..])
      ensures IsPlacement(old(ranklist[..]), |costs|, n) && Nonnegative(costs) && Sum(costs) > 0.0 ==> ok
    {
      ghost var home := ranklist[..];
      swaps, niters := [], 0;
      ok := InitializeRanks(n, costs, ranklist[..]);
      if !ok {
        return;
      }
      var avgCost, maxCost := GetRankStats(costs, home);
      while maxCost > target
        invariant nranks == n && fresh(ranks) && |swaps| == niters <= maxIters && ranklist[..] == home
        invariant AreChosen(costs, home, n, swaps) && Valid(costs, AfterSwaps(home, swaps))
        invariant MaxLoadAtMost(costs, AfterSwaps(home, swaps), n, maxCost)
        invariant niters < maxIters
        decreases maxIters - niters
      {
        swaps, ok := Step(costs, home, swaps);
        if !ok {
          return;
        }
        avgCost, maxCost := GetRankStats(costs, AfterSwaps(home, swaps));
        niters := niters + 1;
        if niters == maxIters {
          break;
        }
      }
      ok := UpdateRanklist(costs, AfterSwaps(home, swaps), ranklist);
    }
  }

  /** The entries after block b was added to its rank. */
  lemma HoldsNext(before: seq<Entry>, after: seq<Entry>, costs: seq<real>, home: seq<int>, b: nat, r: int)
    requires |costs| == |home| && b < |home| && HoldsExactly(before, costs[..b], home[..b], r)
    requires after == if home[b] == r then before + [Entry(costs[b], b)] else before
    ensures HoldsExactly(after, costs[..b + 1], home[..b + 1], r)
    ensures Load(costs[..b + 1], home[..b + 1], r)
            == Load(costs[..b], home[..b], r) + if home[b] == r then costs[b] else 0.0
  {
    assert costs[..b + 1][..b] == costs[..b] && home[..b + 1][..b] == home[..b];
    forall e: Entry ensures multiset(after)[e]
                            == One(0 <= e.id < b + 1 && home[..b + 1][e.id] == r && e.cost == costs[..b + 1][e.id]) {
      assert multiset(before)[e] == One(0 <= e.id < b && home[..b][e.id] == r && e.cost == costs[..b][e.id]);
    }
  }
}