/**
 The communication plan of a mesh under a placement (tools/commbench/src/bench/placement_utils.h and amr/block.h):
 every block sends to and receives from each of its neighbours.
 */
module CommPlan {
  import opened Neighbors
  import opened NeighborLists
  import opened Sums

  /** Bytes per face, edge and vertex message. */
  datatype MessageSizes = MessageSizes(face: int, edge: int, vertex: int)

  /** A message between two blocks, as planned by the sender or by the receiver. */
  datatype Message = Message(src: int, dst: int, srcBlock: int, dstBlock: int, tag: int, size: int)

  function SizeOf(sizes: MessageSizes, kind: NeighborType): int
  {
    match kind
    case Face => sizes.face
    case Edge => sizes.edge
    case Vertex => sizes.vertex
    case NotNeighbor => 0
  }

  /** A mesh with symmetric lists and a rank for every block. */
  ghost predicate IsPlaced(om: OrderedMesh, ranklist: seq<int>)
  {
    IsSymmetric(om) && |ranklist| == om.nblocks
  }

  ghost predicate InRange(list: seq<int>, n: int)
  {
    forall k :: 0 <= k < |list| ==> 0 <= list[k] < n
  }

  // ----- the messages of a rank -----

  /** What block b sends to the blocks in list, in order. */
  function ListOut(b: int, list: seq<int>, ranklist: seq<int>, tag: int, size: int): (out: seq<Message>)
    requires 0 <= b < |ranklist| && InRange(list, |ranklist|)
    ensures |out| == |list|
  {
    if |list| == 0 then []
    else
      var j := list[|list| - 1];
      ListOut(b, list[..|list| - 1], ranklist, tag, size) + [Message(ranklist[b], ranklist[j], b, j, tag, size)]
  }

  /** What block b receives from the blocks in list, in order. */
  function ListIn(b: int, list: seq<int>, ranklist: seq<int>, tag: int, size: int): (inn: seq<Message>)
    requires 0 <= b < |ranklist| && InRange(list, |ranklist|)
    ensures |inn| == |list|
  {
    if |list| == 0 then []
    else
      var j := list[|list| - 1];
      ListIn(b, list[..|list| - 1], ranklist, tag, size) + [Message(ranklist[j], ranklist[b], j, b, tag, size)]
  }

  ghost predicate NodeInRange(node: Node, n: int)
  {
    InRange(node.face, n) && InRange(node.edge, n) && InRange(node.vertex, n)
  }

  function BlockOut(b: int, node: Node, ranklist: seq<int>, sizes: MessageSizes): seq<Message>
    requires 0 <= b < |ranklist| && NodeInRange(node, |ranklist|)
  {
    ListOut(b, node.face, ranklist, 1, sizes.face) + ListOut(b, node.edge, ranklist, 2, sizes.edge)
    + ListOut(b, node.vertex, ranklist, 3, sizes.vertex)
  }

  function BlockIn(b: int, node: Node, ranklist: seq<int>, sizes: MessageSizes): seq<Message>
    requires 0 <= b < |ranklist| && NodeInRange(node, |ranklist|)
  {
    ListIn(b, node.face, ranklist, 1, sizes.face) + ListIn(b, node.edge, ranklist, 2, sizes.edge)
    + ListIn(b, node.vertex, ranklist, 3, sizes.vertex)
  }

  ghost predicate AllInRange(om: OrderedMesh, ranklist: seq<int>)
  {
    |om.nbrmap| == om.nblocks == |ranklist| && forall b :: 0 <= b < om.nblocks ==> NodeInRange(om.nbrmap[b], om.nblocks)
  }

  function Flatten(parts: seq<seq<Message>>): seq<Message>
  {
    if |parts| == 0 then [] else Flatten(parts[..|parts| - 1]) + parts[|parts| - 1]
  }

  /** Per block, what rank sends on its behalf. */
  function PartsOut(om: OrderedMesh, ranklist: seq<int>, sizes: MessageSizes, rank: int): (parts: seq<seq<Message>>)
    requires AllInRange(om, ranklist)
    ensures |parts| == om.nblocks
    ensures forall b :: 0 <= b < om.nblocks ==>
              parts[b] == if ranklist[b] == rank then BlockOut(b, om.nbrmap[b], ranklist, sizes) else []
  {
    seq(om.nblocks, b requires 0 <= b < om.nblocks =>
      if ranklist[b] == rank then BlockOut(b, om.nbrmap[b], ranklist, sizes) else [])
  }

  function PartsIn(om: OrderedMesh, ranklist: seq<int>, sizes: MessageSizes, rank: int): (parts: seq<seq<Message>>)
    requires AllInRange(om, ranklist)
    ensures |parts| == om.nblocks
    ensures forall b :: 0 <= b < om.nblocks ==>
              parts[b] == if ranklist[b] == rank then BlockIn(b, om.nbrmap[b], ranklist, sizes) else []
  {
    seq(om.nblocks, b requires 0 <= b < om.nblocks =>
      if ranklist[b] == rank then BlockIn(b, om.nbrmap[b], ranklist, sizes) else [])
  }

  /** What rank sends and receives in a round, block by block. */
  function RankOut(om: OrderedMesh, ranklist: seq<int>, sizes: MessageSizes, rank: int): seq<Message>
    requires AllInRange(om, ranklist)
  {
    Flatten(PartsOut(om, ranklist, sizes, rank))
  }

  function RankIn(om: OrderedMesh, ranklist: seq<int>, sizes: MessageSizes, rank: int): seq<Message>
    requires AllInRange(om, ranklist)
  {
    Flatten(PartsIn(om, ranklist, sizes, rank))
  }

  lemma PlacedInRange(om: OrderedMesh, ranklist: seq<int>)
    requires IsPlaced(om, ranklist)
    ensures AllInRange(om, ranklist)
  {
    forall b | 0 <= b < om.nblocks ensures NodeInRange(om.nbrmap[b], om.nblocks) {
      assert IsMutual(om, b, Face) && IsMutual(om, b, Edge) && IsMutual(om, b, Vertex);
      ListInRange(om, b, Face);
      ListInRange(om, b, Edge);
      ListInRange(om, b, Vertex);
    }
  }

  lemma ListInRange(om: OrderedMesh, b: int, kind: NeighborType)
    requires |om.nbrmap| == om.nblocks && 0 <= b < om.nblocks && IsMutual(om, b, kind)
    ensures InRange(ListOf(om.nbrmap[b], kind), om.nblocks)
  {
    var list := ListOf(om.nbrmap[b], kind);
    forall k | 0 <= k < |list| ensures 0 <= list[k] < om.nblocks {
      assert list[k] in list;
    }
  }

  // ----- how often a message is planned -----

  lemma {:induction false} ListOutHolds(b: int, list: seq<int>, ranklist: seq<int>, tag: int, size: int, m: Message)
    requires 0 <= b < |ranklist| && InRange(list, |ranklist|) && IsAscending(list)
    ensures multiset(ListOut(b, list, ranklist, tag, size))[m]
            == One(m.srcBlock == b && m.dstBlock in list && m.src == ranklist[b] && m.dst == ranklist[m.dstBlock]
                   && m.tag == tag && m.size == size)
  {
    if |list| > 0 {
      var n := |list| - 1;
      ListOutHolds(b, list[..n], ranklist, tag, size, m);
      assert list == list[..n] + [list[n]];
      assert list[n] !in list[..n];
    }
  }

  lemma {:induction false} ListInHolds(b: int, list: seq<int>, ranklist: seq<int>, tag: int, size: int, m: Message)
    requires 0 <= b < |ranklist| && InRange(list, |ranklist|) && IsAscending(list)
    ensures multiset(ListIn(b, list, ranklist, tag, size))[m]
            == One(m.dstBlock == b && m.srcBlock in list && m.dst == ranklist[b] && m.src == ranklist[m.srcBlock]
                   && m.tag == tag && m.size == size)
  {
    if |list| > 0 {
      var n := |list| - 1;
      ListInHolds(b, list[..n], ranklist, tag, size, m);
      assert list == list[..n] + [list[n]];
      assert list[n] !in list[..n];
    }
  }

  function KindOf(tag: int): NeighborType
  {
    if tag == 1 then Face else if tag == 2 then Edge else if tag == 3 then Vertex else NotNeighbor
  }

  ghost predicate NodeAscends(node: Node)
  {
    IsAscending(node.face) && IsAscending(node.edge) && IsAscending(node.vertex)
  }

  lemma BlockOutHolds(b: int, node: Node, ranklist: seq<int>, sizes: MessageSizes, m: Message)
    requires 0 <= b < |ranklist| && NodeInRange(node, |ranklist|) && NodeAscends(node)
    ensures multiset(BlockOut(b, node, ranklist, sizes))[m]
            == One(m.srcBlock == b && m.dstBlock in ListOf(node, KindOf(m.tag)) && m.src == ranklist[b]
                   && m.dst == ranklist[m.dstBlock] && m.size == SizeOf(sizes, KindOf(m.tag)))
  {
    ListOutHolds(b, node.face, ranklist, 1, sizes.face, m);
    ListOutHolds(b, node.edge, ranklist, 2, sizes.edge, m);
    ListOutHolds(b, node.vertex, ranklist, 3, sizes.vertex, m);
  }

  lemma BlockInHolds(b: int, node: Node, ranklist: seq<int>, sizes: MessageSizes, m: Message)
    requires 0 <= b < |ranklist| && NodeInRange(node, |ranklist|) && NodeAscends(node)
    ensures multiset(BlockIn(b, node, ranklist, sizes))[m]
            == One(m.dstBlock == b && m.srcBlock in ListOf(node, KindOf(m.tag)) && m.dst == ranklist[b]
                   && m.src == ranklist[m.srcBlock] && m.size == SizeOf(sizes, KindOf(m.tag)))
  {
    ListInHolds(b, node.face, ranklist, 1, sizes.face, m);
    ListInHolds(b, node.edge, ranklist, 2, sizes.edge, m);
    ListInHolds(b, node.vertex, ranklist, 3, sizes.vertex, m);
  }

  /**
   What block b plans to send, kind by kind: once each to its face neighbours with tag 1 and the first size, to its edge
   neighbours with tag 2 and the second, to its vertex neighbours with tag 3 and the third; and nothing else.
   */
  lemma PlannedByKind(b: int, node: Node, ranklist: seq<int>, sizes: MessageSizes, m: Message)
    requires 0 <= b < |ranklist| && NodeInRange(node, |ranklist|) && NodeAscends(node)
    ensures multiset(BlockOut(b, node, ranklist, sizes))[m]
            == One(0 <= m.dstBlock < |ranklist|
                   && m == Message(ranklist[b], ranklist[m.dstBlock], b, m.dstBlock, m.tag, m.size)
                   && ((m.tag == 1 && m.size == sizes.face && m.dstBlock in node.face)
                       || (m.tag == 2 && m.size == sizes.edge && m.dstBlock in node.edge)
                       || (m.tag == 3 && m.size == sizes.vertex && m.dstBlock in node.vertex)))
  {
    BlockOutHolds(b, node, ranklist, sizes, m);
  }

  /** A message is due when its blocks are neighbours of its kind, on its ranks. */
  ghost predicate IsDue(om: OrderedMesh, ranklist: seq<int>, sizes: MessageSizes, m: Message)
    requires |om.nbrmap| == om.nblocks == |ranklist|
  {
    && 0 <= m.srcBlock < om.nblocks && 0 <= m.dstBlock < om.nblocks
    && m.src == ranklist[m.srcBlock] && m.dst == ranklist[m.dstBlock]
    && m.dstBlock in ListOf(om.nbrmap[m.srcBlock], KindOf(m.tag)) && m.size == SizeOf(sizes, KindOf(m.tag))
  }

  lemma NodesAscend(om: OrderedMesh, ranklist: seq<int>, b: int)
    requires IsPlaced(om, ranklist) && 0 <= b < om.nblocks
    ensures NodeAscends(om.nbrmap[b])
  {
    var node := om.nbrmap[b];
    assert IsAscending(ListOf(node, Face)) && IsAscending(ListOf(node, Edge)) && IsAscending(ListOf(node, Vertex));
  }

  /** Whether a message is due can be read off the receiver's list as well. */
  lemma DueBackwards(om: OrderedMesh, ranklist: seq<int>, sizes: MessageSizes, m: Message, b: int)
    requires IsPlaced(om, ranklist) && AllInRange(om, ranklist) && 0 <= b < om.nblocks
    ensures m.dstBlock == b && IsDue(om, ranklist, sizes, m)
            <==> m.dstBlock == b && m.srcBlock in ListOf(om.nbrmap[b], KindOf(m.tag)) && m.dst == ranklist[b]
                 && m.src == ranklist[m.srcBlock] && m.size == SizeOf(sizes, KindOf(m.tag))
  {
    assert IsMutual(om, b, KindOf(m.tag));
    if 0 <= m.srcBlock < om.nblocks {
      assert IsMutual(om, m.srcBlock, KindOf(m.tag));
    }
  }

  lemma OutOfBlock(om: OrderedMesh, ranklist: seq<int>, sizes: MessageSizes, b: int, m: Message)
    requires IsPlaced(om, ranklist) && AllInRange(om, ranklist) && 0 <= b < om.nblocks
    ensures multiset(BlockOut(b, om.nbrmap[b], ranklist, sizes))[m]
            == One(m.srcBlock == b && m.src == ranklist[b] && IsDue(om, ranklist, sizes, m))
  {
    NodesAscend(om, ranklist, b);
    BlockOutHolds(b, om.nbrmap[b], ranklist, sizes, m);
    assert IsMutual(om, b, KindOf(m.tag));
  }

  lemma IntoBlock(om: OrderedMesh, ranklist: seq<int>, sizes: MessageSizes, b: int, m: Message)
    requires IsPlaced(om, ranklist) && AllInRange(om, ranklist) && 0 <= b < om.nblocks
    ensures multiset(BlockIn(b, om.nbrmap[b], ranklist, sizes))[m]
            == One(m.dstBlock == b && m.dst == ranklist[b] && IsDue(om, ranklist, sizes, m))
  {
    NodesAscend(om, ranklist, b);
    BlockInHolds(b, om.nbrmap[b], ranklist, sizes, m);
    DueBackwards(om, ranklist, sizes, m, b);
  }

  /** A message that only part number at holds, and only if it is a hit. */
  lemma {:induction false} FlattenHolds(parts: seq<seq<Message>>, m: Message, at: int, hit: bool)
    requires forall b :: 0 <= b < |parts| ==> multiset(parts[b])[m] == One(b == at && hit)
    ensures multiset(Flatten(parts))[m] == One(0 <= at < |parts| && hit)
  {
    if |parts| > 0 {
      FlattenHolds(parts[..|parts| - 1], m, at, hit);
    }
  }

  lemma RankOutHolds(om: OrderedMesh, ranklist: seq<int>, sizes: MessageSizes, rank: int, m: Message)
    requires IsPlaced(om, ranklist) && AllInRange(om, ranklist)
    ensures multiset(RankOut(om, ranklist, sizes, rank))[m] == One(m.src == rank && IsDue(om, ranklist, sizes, m))
  {
    var parts, hit := PartsOut(om, ranklist, sizes, rank), m.src == rank && IsDue(om, ranklist, sizes, m);
    forall b | 0 <= b < om.nblocks ensures multiset(parts[b])[m] == One(b == m.srcBlock && hit) {
      OutOfBlock(om, ranklist, sizes, b, m);
    }
    FlattenHolds(parts, m, m.srcBlock, hit);
  }

  lemma RankInHolds(om: OrderedMesh, ranklist: seq<int>, sizes: MessageSizes, rank: int, m: Message)
    requires IsPlaced(om, ranklist) && AllInRange(om, ranklist)
    ensures multiset(RankIn(om, ranklist, sizes, rank))[m] == One(m.dst == rank && IsDue(om, ranklist, sizes, m))
  {
    var parts, hit := PartsIn(om, ranklist, sizes, rank), m.dst == rank && IsDue(om, ranklist, sizes, m);
    forall b | 0 <= b < om.nblocks ensures multiset(parts[b])[m] == One(b == m.dstBlock && hit) {
      IntoBlock(om, ranklist, sizes, b, m);
    }
    FlattenHolds(parts, m, m.dstBlock, hit);
  }

  /**
   Main result: for every placement, a message is planned equally often, and at most once, by the rank that sends it and
   by the rank that receives it.
   */
  lemma PlansMatch(om: OrderedMesh, ranklist: seq<int>, sizes: MessageSizes, m: Message)
    requires IsPlaced(om, ranklist) && AllInRange(om, ranklist)
    ensures multiset(RankOut(om, ranklist, sizes, m.src))[m]
            == multiset(RankIn(om, ranklist, sizes, m.dst))[m] == One(IsDue(om, ranklist, sizes, m))
  {
    RankOutHolds(om, ranklist, sizes, m.src, m);
    RankInHolds(om, ranklist, sizes, m.dst, m);
  }

  /** The messages on a channel: MPI matches by source, destination and tag. */
  function OnChannel(s: seq<Message>, src: int, dst: int, tag: int): (r: seq<Message>)
  {
    if |s| == 0 then []
    else
      var m := s[|s| - 1];
      OnChannel(s[..|s| - 1], src, dst, tag) + if m.src == src && m.dst == dst && m.tag == tag then [m] else []
  }

  lemma {:induction false} ChannelHolds(s: seq<Message>, src: int, dst: int, tag: int, m: Message)
    ensures multiset(OnChannel(s, src, dst, tag))[m]
            == if m.src == src && m.dst == dst && m.tag == tag then multiset(s)[m] else 0
  {
    if |s| > 0 {
      var n := |s| - 1;
      ChannelHolds(s[..n], src, dst, tag, m);
      assert s == s[..n] + [s[n]];
    }
  }

  function Bytes(s: seq<Message>): int
  {
    if |s| == 0 then 0 else Bytes(s[..|s| - 1]) + s[|s| - 1].size
  }

  lemma {:induction false} BytesAppend(a: seq<Message>, b: seq<Message>)
    ensures Bytes(a + b) == Bytes(a) + Bytes(b)
  {
    if b == [] {
      assert a + b == a;
    } else {
      BytesAppend(a, b[..|b| - 1]);
      assert (a + b)[..|a + b| - 1] == a + b[..|b| - 1];
    }
  }

  /** The list without entry k. */
  lemma WithoutEntry(s: seq<Message>, k: nat)
    requires k < |s|
    ensures multiset(s[..k] + s[k + 1..]) == multiset(s) - multiset{s[k]}
    ensures Bytes(s) == Bytes(s[..k] + s[k + 1..]) + s[k].size
  {
    var m := s[k];
    SplitAround(s, k);
    BytesAppend(s[..k], [m]);
    BytesAppend(s[..k] + [m], s[k + 1..]);
    BytesAppend(s[..k], s[k + 1..]);
    assert [m][..0] == [];
  }

  /** Lists that hold the same messages have the same length and the same total size. */
  lemma {:induction false} SameMessages(a: seq<Message>, b: seq<Message>)
    requires multiset(a) == multiset(b)
    ensures |a| == |b| && Bytes(a) == Bytes(b)
  {
    assert |multiset(a)| == |a| && |multiset(b)| == |b|;
    if |a| > 0 {
      var n := |a| - 1;
      assert a == a[..n] + [a[n]];
      assert a[n] in multiset(b);
      var k :| 0 <= k < |b| && b[k] == a[n];
      WithoutEntry(b, k);
      SameMessages(a[..n], b[..k] + b[k + 1..]);
    }
  }

  /** On every channel the sends equal the receives: the same messages, so the same number and bytes. */
  lemma ChannelsMatch(om: OrderedMesh, ranklist: seq<int>, sizes: MessageSizes, p: int, q: int, tag: int)
    requires IsPlaced(om, ranklist) && AllInRange(om, ranklist)
    ensures var out := OnChannel(RankOut(om, ranklist, sizes, p), p, q, tag);
            var inn := OnChannel(RankIn(om, ranklist, sizes, q), p, q, tag);
            multiset(out) == multiset(inn) && |out| == |inn| && Bytes(out) == Bytes(inn)
  {
    var out := OnChannel(RankOut(om, ranklist, sizes, p), p, q, tag);
    var inn := OnChannel(RankIn(om, ranklist, sizes, q), p, q, tag);
    forall m ensures multiset(out)[m] == multiset(inn)[m] {
      ChannelHolds(RankOut(om, ranklist, sizes, p), p, q, tag, m);
      ChannelHolds(RankIn(om, ranklist, sizes, q), p, q, tag, m);
      PlansMatch(om, ranklist, sizes, m);
    }
    SameMessages(out, inn);
  }

  // ----- all ranks together -----

  function AllOut(om: OrderedMesh, ranklist: seq<int>, sizes: MessageSizes, ranks: nat): seq<Message>
    requires AllInRange(om, ranklist)
  {
    Flatten(seq(ranks, rank requires 0 <= rank < ranks => RankOut(om, ranklist, sizes, rank)))
  }

  function AllIn(om: OrderedMesh, ranklist: seq<int>, sizes: MessageSizes, ranks: nat): seq<Message>
    requires AllInRange(om, ranklist)
  {
    Flatten(seq(ranks, rank requires 0 <= rank < ranks => RankIn(om, ranklist, sizes, rank)))
  }

  lemma AllHolds(om: OrderedMesh, ranklist: seq<int>, sizes: MessageSizes, ranks: nat, m: Message)
    requires IsPlaced(om, ranklist) && AllInRange(om, ranklist)
    ensures multiset(AllOut(om, ranklist, sizes, ranks))[m] == One(0 <= m.src < ranks && IsDue(om, ranklist, sizes, m))
    ensures multiset(AllIn(om, ranklist, sizes, ranks))[m] == One(0 <= m.dst < ranks && IsDue(om, ranklist, sizes, m))
  {
    var out := seq(ranks, rank requires 0 <= rank < ranks => RankOut(om, ranklist, sizes, rank));
    var inn := seq(ranks, rank requires 0 <= rank < ranks => RankIn(om, ranklist, sizes, rank));
    var due := IsDue(om, ranklist, sizes, m);
    forall rank | 0 <= rank < ranks
      ensures multiset(out[rank])[m] == One(rank == m.src && due) && multiset(inn[rank])[m] == One(rank == m.dst && due)
    {
      RankOutHolds(om, ranklist, sizes, rank, m);
      RankInHolds(om, ranklist, sizes, rank, m);
    }
    FlattenHolds(out, m, m.src, due);
    FlattenHolds(inn, m, m.dst, due);
  }

  /** Main result: when every block's rank exists, all ranks together send the messages and bytes that they receive. */
  lemma TotalsMatch(om: OrderedMesh, ranklist: seq<int>, sizes: MessageSizes, ranks: nat)
    requires IsPlaced(om, ranklist) && AllInRange(om, ranklist) && InRange(ranklist, ranks)
    ensures var out, inn := AllOut(om, ranklist, sizes, ranks), AllIn(om, ranklist, sizes, ranks);
            |out| == |inn| && Bytes(out) == Bytes(inn)
  {
    var out, inn := AllOut(om, ranklist, sizes, ranks), AllIn(om, ranklist, sizes, ranks);
    forall m ensures multiset(out)[m] == multiset(inn)[m] {
      AllHolds(om, ranklist, sizes, ranks, m);
    }
    SameMessages(out, inn);
  }
}
