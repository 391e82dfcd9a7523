/**
 The blocks of a rank and their boundary buffers (tools/commbench/src/bench/placement_utils.h, amr/block.h and
 amr/bvar.cc).
 */
module Blocks {
  import opened NeighborLists
  import opened CommPlan

  /** Buffers of a block: every neighbour takes one for sending and one for receiving. */
  const MAX_NEIGHBOR: int := 512

  const MAX_MESSAGE_SIZE: int := 32768

  datatype NeighborBlock = NeighborBlock(blockId: int, peerRank: int, bufId: int, msgSize: int, tag: int)

  // ----- which blocks -----

  /** ids lists, in ascending order, the blocks below n that are on rank. */
  ghost predicate AreBlocksOf(ids: seq<int>, ranklist: seq<int>, rank: int, n: int)
    requires 0 <= n <= |ranklist|
  {
    && IsAscending(ids) && InRange(ids, n)
    && forall b :: 0 <= b < n ==> (b in ids <==> ranklist[b] == rank)
  }

  method GetBlockidsByRank(ranklist: seq<int>, rank: int) returns (ids: seq<int>)
    ensures AreBlocksOf(ids, ranklist, rank, |ranklist|)
  {
    ids := [];
    for b := 0 to |ranklist|
      invariant AreBlocksOf(ids, ranklist, rank, b)
    {
      if ranklist[b] == rank {
        assert b in ids + [b];
        ids := ids + [b];
      }
    }
  }

  // ----- a block -----

  /** The message a send entry, or a receive entry, of block b on rank stands for. */
  function AsSend(b: int, rank: int, e: NeighborBlock): Message
  {
    Message(rank, e.peerRank, b, e.blockId, e.tag, e.msgSize)
  }

  function AsReceive(b: int, rank: int, e: NeighborBlock): Message
  {
    Message(e.peerRank, rank, e.blockId, b, e.tag, e.msgSize)
  }

  function AsSends(b: int, rank: int, es: seq<NeighborBlock>): seq<Message>
  {
    if |es| == 0 then [] else AsSends(b, rank, es[..|es| - 1]) + [AsSend(b, rank, es[|es| - 1])]
  }

  function AsReceives(b: int, rank: int, es: seq<NeighborBlock>): seq<Message>
  {
    if |es| == 0 then [] else AsReceives(b, rank, es[..|es| - 1]) + [AsReceive(b, rank, es[|es| - 1])]
  }

  /** Entry k uses buffers 2k and 2k + 1, so no buffer is used twice. */
  ghost predicate IsPaired(snd: seq<NeighborBlock>, rcv: seq<NeighborBlock>)
  {
    && |snd| == |rcv|
    && (forall k :: 0 <= k < |snd| ==> snd[k].bufId == 2 * k)
    && (forall k :: 0 <= k < |rcv| ==> rcv[k].bufId == 2 * k + 1)
  }

  class MeshBlock {
    const blockId: int
    var snd: seq<NeighborBlock>
    var rcv: seq<NeighborBlock>

    constructor (blockId: int)
      ensures this.blockId == blockId && snd == rcv == []
    {
      this.blockId := blockId;
      snd, rcv := [], [];
    }

    /** Not ok where the source aborts: too many neighbours. */
    method AddNeighborSend(nbr: int, peerRank: int, msgSize: int, tag: int) returns (ok: bool)
      modifies this`snd
      ensures snd == old(snd) + [NeighborBlock(nbr, peerRank, |old(snd)| + |rcv|, msgSize, tag)]
      ensures ok <==> |snd| + |rcv| <= MAX_NEIGHBOR
    {
      var bufId := |snd| + |rcv|;
      snd := snd + [NeighborBlock(nbr, peerRank, bufId, msgSize, tag)];
      ok := |snd| + |rcv| <= MAX_NEIGHBOR;
    }

    method AddNeighborRecv(nbr: int, peerRank: int, msgSize: int, tag: int) returns (ok: bool)
      modifies this`rcv
      ensures rcv == old(rcv) + [NeighborBlock(nbr, peerRank, |snd| + |old(rcv)|, msgSize, tag)]
      ensures ok <==> |snd| + |rcv| <= MAX_NEIGHBOR
    {
      var bufId := |snd| + |rcv|;
      rcv := rcv + [NeighborBlock(nbr, peerRank, bufId, msgSize, tag)];
      ok := |snd| + |rcv| <= MAX_NEIGHBOR;
    }

    method AddNeighborSendRecv(nbr: int, peerRank: int, msgSize: int, tag: int) returns (ok: bool)
      requires IsPaired(snd, rcv)
      modifies this
      ensures ok <==> 2 * (|old(snd)| + 1) <= MAX_NEIGHBOR
      ensures ok ==> IsPaired(snd, rcv)
                     && snd == old(snd) + [NeighborBlock(nbr, peerRank, 2 * |old(snd)|, msgSize, tag)]
                     && rcv == old(rcv) + [NeighborBlock(nbr, peerRank, 2 * |old(snd)| + 1, msgSize, tag)]
    {
      ok := AddNeighborSend(nbr, peerRank, msgSize, tag);
      if !ok {
        return;
      }
      ok := AddNeighborRecv(nbr, peerRank, msgSize, tag);
    }

    /** Adds all neighbours of a list, to send to and to receive from. */
    method AddNeighborVec(bids: seq<int>, ranklist: seq<int>, msgSize: int, tag: int) returns (ok: bool)
      requires IsPaired(snd, rcv) && 0 <= blockId < |ranklist| && InRange(bids, |ranklist|)
      requires 2 * |snd| <= MAX_NEIGHBOR
      modifies this
      ensures ok <==> 2 * (|old(snd)| + |bids|) <= MAX_NEIGHBOR
      ensures ok ==> IsPaired(snd, rcv) && |snd| == |old(snd)| + |bids|
      ensures ok ==> AsSends(blockId, ranklist[blockId], snd)
                     == AsSends(blockId, ranklist[blockId], old(snd)) + ListOut(blockId, bids, ranklist, tag, msgSize)
      ensures ok ==> AsReceives(blockId, ranklist[blockId], rcv)
                     == AsReceives(blockId, ranklist[blockId], old(rcv)) + ListIn(blockId, bids, ranklist, tag, msgSize)
    {
      ghost var rank := ranklist[blockId];
      for i := 0 to |bids|
        invariant IsPaired(snd, rcv) && |snd| == |old(snd)| + i && 2 * |snd| <= MAX_NEIGHBOR
        invariant AsSends(blockId, rank, snd)
                  == AsSends(blockId, rank, old(snd)) + ListOut(blockId, bids[..i], ranklist, tag, msgSize)
        invariant AsReceives(blockId, rank, rcv)
                  == AsReceives(blockId, rank, old(rcv)) + ListIn(blockId, bids[..i], ranklist, tag, msgSize)
      {
        ok := AddNeighborSendRecv(bids[i], ranklist[bids[i]], msgSize, tag);
        if !ok {
          return;
        }
        assert bids[..i + 1][..i] == bids[..i];
      }
      assert bids[..|bids|] == bids;
      ok := true;
    }
  }

  /** What the blocks of a rank send, and receive, in order. */
  ghost function SendsOf(blocks: seq<MeshBlock>, rank: int): seq<Message>
    reads blocks
  {
    if |blocks| == 0 then []
    else
      var b := blocks[|blocks| - 1];
      SendsOf(blocks[..|blocks| - 1], rank) + AsSends(b.blockId, rank, b.snd)
  }

  ghost function ReceivesOf(blocks: seq<MeshBlock>, rank: int): seq<Message>
    reads blocks
  {
    if |blocks| == 0 then []
    else
      var b := blocks[|blocks| - 1];
      ReceivesOf(blocks[..|blocks| - 1], rank) + AsReceives(b.blockId, rank, b.rcv)
  }

  function Degree(node: Node): nat
  {
    |node.face| + |node.edge| + |node.vertex|
  }

  /** One block with all its neighbours; not ok where the source aborts. */
  method CreateBlock(node: Node, bid: int, ranklist: seq<int>, sizes: MessageSizes) returns (block: MeshBlock, ok: bool)
    requires 0 <= bid < |ranklist| && NodeInRange(node, |ranklist|)
    ensures fresh(block) && block.blockId == bid
    ensures ok <==> 2 * Degree(node) <= MAX_NEIGHBOR
    ensures ok ==> IsPaired(block.snd, block.rcv)
    ensures ok ==> AsSends(bid, ranklist[bid], block.snd) == BlockOut(bid, node, ranklist, sizes)
    ensures ok ==> AsReceives(bid, ranklist[bid], block.rcv) == BlockIn(bid, node, ranklist, sizes)
  {
    block := new MeshBlock(bid);
    ok := block.AddNeighborVec(node.face, ranklist, sizes.face, 1);
    if ok {
      ok := block.AddNeighborVec(node.edge, ranklist, sizes.edge, 2);
    }
    if ok {
      ok := block.AddNeighborVec(node.vertex, ranklist, sizes.vertex, 3);
    }
  }

  lemma {:induction false} SkipEmpty(parts: seq<seq<Message>>, a: nat, b: nat)
    requires a <= b <= |parts| && forall k :: a <= k < b ==> parts[k] == []
    ensures Flatten(parts[..a]) == Flatten(parts[..b])
  {
    if a < b {
      SkipEmpty(parts, a, b - 1);
      assert parts[..b][..b - 1] == parts[..b - 1];
    }
  }

  lemma FlattenNext(parts: seq<seq<Message>>, b: nat)
    requires b < |parts|
    ensures Flatten(parts[..b + 1]) == Flatten(parts[..b]) + parts[b]
  {
    assert parts[..b + 1][..b] == parts[..b];
  }

  /** Some block of the rank has more neighbours than there are buffers for. */
  ghost predicate Overflows(om: OrderedMesh, ranklist: seq<int>, rank: int, n: int)
    requires AllInRange(om, ranklist) && n <= om.nblocks
  {
    exists b :: 0 <= b < n && ranklist[b] == rank && 2 * Degree(om.nbrmap[b]) > MAX_NEIGHBOR
  }

  /** From one block of the rank to the next the plan has nothing. */
  lemma NextBlock(om: OrderedMesh, ranklist: seq<int>, sizes: MessageSizes, rank: int, ids: seq<int>, i: nat)
    requires AllInRange(om, ranklist) && AreBlocksOf(ids, ranklist, rank, om.nblocks) && i <= |ids|
    ensures var from, to := if i == 0 then 0 else ids[i - 1] + 1, if i == |ids| then om.nblocks else ids[i];
            && 0 <= from <= to <= om.nblocks
            && (forall b :: from <= b < to ==> ranklist[b] != rank)
            && Flatten(PartsOut(om, ranklist, sizes, rank)[..from])
               == Flatten(PartsOut(om, ranklist, sizes, rank)[..to])
            && Flatten(PartsIn(om, ranklist, sizes, rank)[..from]) == Flatten(PartsIn(om, ranklist, sizes, rank)[..to])
  {
    var from, to := if i == 0 then 0 else ids[i - 1] + 1, if i == |ids| then om.nblocks else ids[i];
    forall b | from <= b < to ensures ranklist[b] != rank {
      forall k | 0 <= k < |ids| ensures ids[k] != b {
        assert k < i - 1 ==> ids[k] < ids[i - 1];
        assert k > i ==> ids[k] > ids[i];
      }
    }
    SkipEmpty(PartsOut(om, ranklist, sizes, rank), from, to);
    SkipEmpty(PartsIn(om, ranklist, sizes, rank), from, to);
  }

  /** What the blocks hold is the plan of the rank's blocks below n. */
  ghost predicate HoldPlan(blocks: seq<MeshBlock>, om: OrderedMesh, ranklist: seq<int>, sizes: MessageSizes,
                           rank: int, n: nat)
    requires AllInRange(om, ranklist) && n <= om.nblocks
    reads blocks
  {
    && SendsOf(blocks, rank) == Flatten(PartsOut(om, ranklist, sizes, rank)[..n])
    && ReceivesOf(blocks, rank) == Flatten(PartsIn(om, ranklist, sizes, rank)[..n])
    && forall k :: 0 <= k < |blocks| ==> IsPaired(blocks[k].snd, blocks[k].rcv)
  }

  lemma HoldNext(blocks: seq<MeshBlock>, block: MeshBlock, om: OrderedMesh, ranklist: seq<int>, sizes: MessageSizes,
                 b: nat)
    requires AllInRange(om, ranklist) && b < om.nblocks && HoldPlan(blocks, om, ranklist, sizes, ranklist[b], b)
    requires block.blockId == b && IsPaired(block.snd, block.rcv)
    requires AsSends(b, ranklist[b], block.snd) == BlockOut(b, om.nbrmap[b], ranklist, sizes)
    requires AsReceives(b, ranklist[b], block.rcv) == BlockIn(b, om.nbrmap[b], ranklist, sizes)
    ensures HoldPlan(blocks + [block], om, ranklist, sizes, ranklist[b], b + 1)
  {
    FlattenNext(PartsOut(om, ranklist, sizes, ranklist[b]), b);
    FlattenNext(PartsIn(om, ranklist, sizes, ranklist[b]), b);
    assert (blocks + [block])[..|blocks|] == blocks;
  }

  /** Where the walk over the ids stands before entry i, and where its next block is. */
  function From(ids: seq<int>, i: nat): int
    requires i <= |ids|
  {
    if i == 0 then 0 else ids[i - 1] + 1
  }

  function To(ids: seq<int>, i: nat, n: int): int
    requires i <= |ids|
  {
    if i == |ids| then n else ids[i]
  }

  lemma HoldUntilNext(blocks: seq<MeshBlock>, om: OrderedMesh, ranklist: seq<int>, sizes: MessageSizes, rank: int,
                      ids: seq<int>, i: nat)
    requires AllInRange(om, ranklist) && AreBlocksOf(ids, ranklist, rank, om.nblocks) && i <= |ids|
    requires 0 <= From(ids, i) <= om.nblocks && HoldPlan(blocks, om, ranklist, sizes, rank, From(ids, i))
    requires !Overflows(om, ranklist, rank, From(ids, i))
    ensures 0 <= To(ids, i, om.nblocks) <= om.nblocks
              && HoldPlan(blocks, om, ranklist, sizes, rank, To(ids, i, om.nblocks))
    ensures !Overflows(om, ranklist, rank, To(ids, i, om.nblocks))
  {
    NextBlock(om, ranklist, sizes, rank, ids, i);
  }

  method CreateNext(om: OrderedMesh, ranklist: seq<int>, sizes: MessageSizes, blocks: seq<MeshBlock>, b: int)
    returns (blocks': seq<MeshBlock>, ok: bool)
    requires AllInRange(om, ranklist) && 0 <= b < om.nblocks && HoldPlan(blocks, om, ranklist, sizes, ranklist[b], b)
    requires !Overflows(om, ranklist, ranklist[b], b)
    ensures ok ==> HoldPlan(blocks', om, ranklist, sizes, ranklist[b], b + 1)
    ensures ok ==> !Overflows(om, ranklist, ranklist[b], b + 1)
    ensures !ok ==> Overflows(om, ranklist, ranklist[b], om.nblocks)
  {
    var block;
    block, ok := CreateBlock(om.nbrmap[b], b, ranklist, sizes);
    blocks' := blocks + [block];
    if ok {
      HoldNext(blocks, block, om, ranklist, sizes, b);
    }
  }

  lemma WholePlan(blocks: seq<MeshBlock>, om: OrderedMesh, ranklist: seq<int>, sizes: MessageSizes, rank: int)
    requires AllInRange(om, ranklist) && HoldPlan(blocks, om, ranklist, sizes, rank, om.nblocks)
    ensures SendsOf(blocks, rank) == RankOut(om, ranklist, sizes, rank)
    ensures ReceivesOf(blocks, rank) == RankIn(om, ranklist, sizes, rank)
  {
    assert PartsOut(om, ranklist, sizes, rank)[..om.nblocks] == PartsOut(om, ranklist, sizes, rank);
    assert PartsIn(om, ranklist, sizes, rank)[..om.nblocks] == PartsIn(om, ranklist, sizes, rank);
  }

  /** The blocks of a rank with exactly the planned sends and receives, unless a block has too many neighbours. */
  method CreateBlocksFromOmesh(om: OrderedMesh, ranklist: seq<int>, rank: int, sizes: MessageSizes)
    returns (blocks: seq<MeshBlock>, ok: bool)
    requires AllInRange(om, ranklist)
    ensures ok <==> !Overflows(om, ranklist, rank, om.nblocks)
    ensures ok ==> SendsOf(blocks, rank) == RankOut(om, ranklist, sizes, rank)
    ensures ok ==> ReceivesOf(blocks, rank) == RankIn(om, ranklist, sizes, rank)
    ensures ok ==> forall k :: 0 <= k < |blocks| ==> IsPaired(blocks[k].snd, blocks[k].rcv)
  {
    var ids := GetBlockidsByRank(ranklist, rank);
    blocks, ok := CreateAll(om, ranklist, rank, sizes, ids);
    if ok {
      WholePlan(blocks, om, ranklist, sizes, rank);
    }
  }

  method CreateAll(om: OrderedMesh, ranklist: seq<int>, rank: int, sizes: MessageSizes, ids: seq<int>)
    returns (blocks: seq<MeshBlock>, ok: bool)
    requires AllInRange(om, ranklist) && AreBlocksOf(ids, ranklist, rank, om.nblocks)
    ensures ok ==> HoldPlan(blocks, om, ranklist, sizes, rank, om.nblocks)
    ensures ok <==> !Overflows(om, ranklist, rank, om.nblocks)
  {
    blocks, ok := [], true;
    for i := 0 to |ids|
      invariant ok && HoldsUpTo(blocks, om, ranklist, sizes, rank, ids, i)
    {
      blocks, ok := CreateAt(om, ranklist, rank, sizes, ids, i, blocks);
      if !ok {
        return;
      }
    }
    HoldUntilNext(blocks, om, ranklist, sizes, rank, ids, |ids|);
  }

  ghost predicate HoldsUpTo(blocks: seq<MeshBlock>, om: OrderedMesh, ranklist: seq<int>, sizes: MessageSizes, rank: int,
                            ids: seq<int>, i: nat)
    requires AllInRange(om, ranklist) && i <= |ids|
    reads blocks
  {
    && 0 <= From(ids, i) <= om.nblocks && HoldPlan(blocks, om, ranklist, sizes, rank, From(ids, i))
    && !Overflows(om, ranklist, rank, From(ids, i))
  }

  method CreateAt(om: OrderedMesh, ranklist: seq<int>, rank: int, sizes: MessageSizes, ids: seq<int>, i: nat,
                  blocks: seq<MeshBlock>)
    returns (blocks': seq<MeshBlock>, ok: bool)
    requires AllInRange(om, ranklist) && AreBlocksOf(ids, ranklist, rank, om.nblocks) && i < |ids|
    requires HoldsUpTo(blocks, om, ranklist, sizes, rank, ids, i)
    ensures ok ==> HoldsUpTo(blocks', om, ranklist, sizes, rank, ids, i + 1)
    ensures !ok ==> Overflows(om, ranklist, rank, om.nblocks)
  {
    HoldUntilNext(blocks, om, ranklist, sizes, rank, ids, i);
    assert ids[i] in ids;
    blocks', ok := CreateNext(om, ranklist, sizes, blocks, ids[i]);
  }
}
