/**
 The neighbour lists of a mesh (tools/commbench/src/amr/mesh.cc): what the lookup by offsets collects, and that it is
 exactly the blocks that touch.
 */
module NeighborLists {
  import opened Octree
  import opened Covering
  import opened Neighbors

  /** A block's neighbours by their numbers. */
  datatype Node = Node(face: seq<int>, edge: seq<int>, vertex: seq<int>)

  datatype OrderedMesh = OrderedMesh(nblocks: int, nbrmap: seq<Node>)

  function ListOf(node: Node, kind: NeighborType): seq<int>
  {
    match kind
    case Face => node.face
    case Edge => node.edge
    case Vertex => node.vertex
    case NotNeighbor => []
  }

  predicate IsAscending(s: seq<int>)
  {
    forall i, j :: 0 <= i < j < |s| ==> s[i] < s[j]
  }

  // ----- what the lookup collects -----

  /** Block nl is met at loc + off and passes the tests there. */
  predicate IsMet(t: Tree, ids: map<Loc, int>, loc: Loc, id: int, kind: NeighborType, off: Vec, nl: Loc)
    requires 0 <= t.rootLevel <= loc.level
  {
    && nl in CoveringLeaves(t, Shifted(loc, off))
    && nl in ids && ids[nl] != id && AreNeighborsByType(loc, nl) == kind
  }

  ghost predicate IsFoundAt(t: Tree, ids: map<Loc, int>, loc: Loc, id: int, kind: NeighborType, off: Vec, x: int)
    requires 0 <= t.rootLevel <= loc.level
  {
    exists nl :: IsMet(t, ids, loc, id, kind, off, nl) && ids[nl] == x
  }

  /** x is found at one of the offsets. */
  ghost predicate IsFound(t: Tree, ids: map<Loc, int>, loc: Loc, id: int, kind: NeighborType, offsets: seq<Vec>, x: int)
    requires 0 <= t.rootLevel <= loc.level
  {
    exists i :: 0 <= i < |offsets| && IsFoundAt(t, ids, loc, id, kind, offsets[i], x)
  }

  /** The list holds, in ascending order and once each, what is found at the offsets. */
  ghost predicate Collects(t: Tree, ids: map<Loc, int>, loc: Loc, id: int, kind: NeighborType, offsets: seq<Vec>,
                           list: seq<int>)
    requires 0 <= t.rootLevel <= loc.level
  {
    IsAscending(list) && forall x :: x in list <==> IsFound(t, ids, loc, id, kind, offsets, x)
  }

  /** ids numbers the leaves from 0 to n - 1. */
  ghost predicate IsNumbering(t: Tree, ids: map<Loc, int>, n: int)
  {
    && ids.Keys == t.leaves && n == |t.leaves|
    && (forall a :: a in ids ==> 0 <= ids[a] < n)
    && (forall a, b :: a in ids && b in ids && ids[a] == ids[b] ==> a == b)
    && (forall i :: 0 <= i < n ==> IsNumberOf(ids, i))
  }

  ghost predicate IsNumberOf(ids: map<Loc, int>, i: int)
  {
    exists a :: a in ids && ids[a] == i
  }

  /** What GetOrderedMesh returns. */
  ghost predicate IsOrderedMesh(t: Tree, ids: map<Loc, int>, om: OrderedMesh)
  {
    && IsForest(t) && IsNumbering(t, ids, om.nblocks) && |om.nbrmap| == om.nblocks
    && forall loc :: loc in ids ==> HasLists(t, ids, loc, om.nbrmap[ids[loc]])
  }

  ghost predicate HasLists(t: Tree, ids: map<Loc, int>, loc: Loc, node: Node)
  {
    && 0 <= t.rootLevel <= loc.level && loc in ids
    && Collects(t, ids, loc, ids[loc], Face, FACE_OFFSETS, node.face)
    && Collects(t, ids, loc, ids[loc], Edge, EDGE_OFFSETS, node.edge)
    && Collects(t, ids, loc, ids[loc], Vertex, VERTEX_OFFSETS, node.vertex)
  }

  lemma ListCollects(t: Tree, ids: map<Loc, int>, loc: Loc, node: Node, kind: NeighborType)
    requires HasLists(t, ids, loc, node) && kind != NotNeighbor
    ensures Collects(t, ids, loc, ids[loc], kind, Offsets(kind), ListOf(node, kind))
  {
    match kind
    case Face =>
    case Edge =>
    case Vertex =>
  }

  // ----- it is what touches -----

  /** The finest coordinates of the domain fit in 32 bits. */
  predicate Fits(t: Tree, maxLevel: int)
  {
    t.rootLevel <= maxLevel &&
    var d := maxLevel - t.rootLevel;
    Shl(t.nx, d) < 0x8000_0000 && Shl(t.ny, d) < 0x8000_0000 && Shl(t.nz, d) < 0x8000_0000
  }

  /** The far end of an interval inside [0, n * 2^d), scaled by e more levels. */
  lemma ScaledEnd(x: int, n: int, d: nat, e: nat, f: nat)
    requires 0 <= x < Shl(n, d) && 0 < n && d + e <= f
    ensures High(x, e) <= Shl(n, f)
  {
    HighIsNextLow(x, e);
    if x + 1 < Shl(n, d) {
      ShlMonotone(x + 1, Shl(n, d), e);
    }
    ShlTwice(n, d, e);
    ShlTwice(n, d + e, f - d - e);
    PositiveShl(n, d + e);
    GrowingShl(Shl(n, d + e), f - d - e);
  }

  lemma PositiveShl(n: int, d: nat)
    requires 0 < n
    ensures 0 < Shl(n, d)
  {
    ShlMonotone(0, n, d);
    ShlZero(d);
  }

  lemma {:induction false} GrowingShl(n: int, d: nat)
    requires 0 <= n
    ensures n <= Shl(n, d)
  {
    if d > 0 {
      GrowingShl(n, d - 1);
    }
  }

  /** A leaf's far ends at the level of another leaf are inside the domain. */
  lemma LeafFits(t: Tree, maxLevel: int, n: Loc, L: int)
    requires IsForest(t) && Fits(t, maxLevel) && n in t.active && n.level <= L <= maxLevel
    ensures 0 <= n.x && 0 <= n.y && 0 <= n.z && FitsBelow(n, L, 0x7fff_ffff)
  {
    ActiveInDomain(t, n);
    var d := n.level - t.rootLevel;
    NonemptyGrid(t.nx, d);
    NonemptyGrid(t.ny, d);
    NonemptyGrid(t.nz, d);
    ScaledEnd(n.x, t.nx, d, L - n.level, maxLevel - t.rootLevel);
    ScaledEnd(n.y, t.ny, d, L - n.level, maxLevel - t.rootLevel);
    ScaledEnd(n.z, t.nz, d, L - n.level, maxLevel - t.rootLevel);
  }

  lemma NonemptyGrid(n: int, d: nat)
    ensures 0 < Shl(n, d) ==> 0 < n
  {
    ShlZero(d);
    ShlMonotone(0, n, d);
  }

  lemma LeavesFit(t: Tree, maxLevel: int, a: Loc, b: Loc)
    requires IsForest(t) && Fits(t, maxLevel) && t.deepest <= maxLevel && a in t.leaves && b in t.leaves
    ensures AreNeighborsByType(a, b) == Relation(a, b)
  {
    LeafFits(t, maxLevel, a, Max(a.level, b.level));
    LeafFits(t, maxLevel, b, Max(a.level, b.level));
    NarrowIsExact(a, b, 0x7fff_ffff);
  }

  /** x numbers a leaf that touches loc in the given way. */
  ghost predicate IsNeighbor(t: Tree, ids: map<Loc, int>, loc: Loc, kind: NeighborType, x: int)
  {
    exists nl :: IsNeighborLeaf(t, ids, loc, kind, nl, x)
  }

  predicate IsNeighborLeaf(t: Tree, ids: map<Loc, int>, loc: Loc, kind: NeighborType, nl: Loc, x: int)
  {
    nl in t.leaves && nl in ids && ids[nl] == x && Relation(loc, nl) == kind
  }

  /** A block is not its own neighbour. */
  lemma NotOwnNeighbor(n: Loc)
    ensures Relation(n, n) == NotNeighbor
  {
  }

  /** Every leaf that touches loc is met at one of the offsets of its kind. */
  lemma NeighborIsMet(t: Tree, ids: map<Loc, int>, loc: Loc, kind: NeighborType, nl: Loc)
    requires IsForest(t) && IsNumbering(t, ids, |t.leaves|) && loc in t.leaves && nl in t.leaves
    requires kind != NotNeighbor && Relation(loc, nl) == AreNeighborsByType(loc, nl) == kind
    ensures IsFound(t, ids, loc, ids[loc], kind, Offsets(kind), ids[nl])
  {
    var off := Direction(loc, nl);
    DirectionIsOffset(loc, nl);
    DirectionReaches(loc, nl);
    CoverExact(t, Shifted(loc, off), nl);
    NotOwnNeighbor(loc);
    assert IsMet(t, ids, loc, ids[loc], kind, off, nl);
    assert IsFoundAt(t, ids, loc, ids[loc], kind, off, ids[nl]);
    var i :| 0 <= i < |Offsets(kind)| && Offsets(kind)[i] == off;
  }

  /**
   Main result: if the finest coordinates fit in 32 bits, a list holds exactly the numbers of all leaves that touch the
   block in the list's way.
   */
  lemma ListIsExact(t: Tree, maxLevel: int, ids: map<Loc, int>, om: OrderedMesh, loc: Loc, kind: NeighborType)
    requires IsOrderedMesh(t, ids, om) && Fits(t, maxLevel) && t.deepest <= maxLevel
    requires loc in t.leaves && kind != NotNeighbor
    ensures var list := ListOf(om.nbrmap[ids[loc]], kind);
            IsAscending(list) && forall x :: x in list <==> IsNeighbor(t, ids, loc, kind, x)
  {
    var list := ListOf(om.nbrmap[ids[loc]], kind);
    assert HasLists(t, ids, loc, om.nbrmap[ids[loc]]);
    ListCollects(t, ids, loc, om.nbrmap[ids[loc]], kind);
    forall x ensures x in list <==> IsNeighbor(t, ids, loc, kind, x) {
      FoundIsNeighbor(t, maxLevel, ids, loc, kind, x);
    }
  }

  lemma FoundIsNeighbor(t: Tree, maxLevel: int, ids: map<Loc, int>, loc: Loc, kind: NeighborType, x: int)
    requires IsForest(t) && IsNumbering(t, ids, |t.leaves|) && Fits(t, maxLevel) && t.deepest <= maxLevel
    requires loc in t.leaves && kind != NotNeighbor
    ensures IsFound(t, ids, loc, ids[loc], kind, Offsets(kind), x) <==> IsNeighbor(t, ids, loc, kind, x)
  {
    if IsFound(t, ids, loc, ids[loc], kind, Offsets(kind), x) {
      var i :| 0 <= i < |Offsets(kind)| && IsFoundAt(t, ids, loc, ids[loc], kind, Offsets(kind)[i], x);
      var nl :| IsMet(t, ids, loc, ids[loc], kind, Offsets(kind)[i], nl) && ids[nl] == x;
      LeavesFit(t, maxLevel, loc, nl);
      assert IsNeighborLeaf(t, ids, loc, kind, nl, x);
    }
    if IsNeighbor(t, ids, loc, kind, x) {
      var nl :| IsNeighborLeaf(t, ids, loc, kind, nl, x);
      LeavesFit(t, maxLevel, loc, nl);
      NeighborIsMet(t, ids, loc, kind, nl);
    }
  }

  // ----- symmetry -----

  /** Every block in the list lists block i in turn. */
  ghost predicate IsMutual(om: OrderedMesh, i: int, kind: NeighborType)
    requires |om.nbrmap| == om.nblocks && 0 <= i < om.nblocks
  {
    forall j :: j in ListOf(om.nbrmap[i], kind) ==> 0 <= j < om.nblocks && i in ListOf(om.nbrmap[j], kind)
  }

  /** What ValidateOmesh checks, of lists without repetitions. */
  ghost predicate IsSymmetric(om: OrderedMesh)
  {
    && |om.nbrmap| == om.nblocks
    && forall i, kind :: 0 <= i < om.nblocks ==> IsMutual(om, i, kind) && IsAscending(ListOf(om.nbrmap[i], kind))
  }

  lemma ListedBack(t: Tree, maxLevel: int, ids: map<Loc, int>, om: OrderedMesh, i: int, kind: NeighborType, j: int)
    requires IsOrderedMesh(t, ids, om) && Fits(t, maxLevel) && t.deepest <= maxLevel
    requires 0 <= i < om.nblocks && j in ListOf(om.nbrmap[i], kind)
    ensures 0 <= j < om.nblocks && i in ListOf(om.nbrmap[j], kind)
  {
    assert IsNumberOf(ids, i);
    var loc :| loc in ids && ids[loc] == i;
    ListIsExact(t, maxLevel, ids, om, loc, kind);
    var nl :| IsNeighborLeaf(t, ids, loc, kind, nl, j);
    RelationIsSymmetric(loc, nl);
    ListIsExact(t, maxLevel, ids, om, nl, kind);
    assert IsNeighborLeaf(t, ids, nl, kind, loc, i);
  }

  lemma ListsAscend(t: Tree, ids: map<Loc, int>, om: OrderedMesh, i: int, kind: NeighborType)
    requires IsOrderedMesh(t, ids, om) && 0 <= i < om.nblocks
    ensures IsAscending(ListOf(om.nbrmap[i], kind))
  {
    assert IsNumberOf(ids, i);
    var loc :| loc in ids && ids[loc] == i;
    assert HasLists(t, ids, loc, om.nbrmap[i]);
  }

  /** Main result: the lists are symmetric, so ValidateOmesh never fails. */
  lemma ListsAreSymmetric(t: Tree, maxLevel: int, ids: map<Loc, int>, om: OrderedMesh)
    requires IsOrderedMesh(t, ids, om) && Fits(t, maxLevel) && t.deepest <= maxLevel
    ensures IsSymmetric(om)
  {
    forall i, kind | 0 <= i < om.nblocks ensures IsMutual(om, i, kind) && IsAscending(ListOf(om.nbrmap[i], kind)) {
      AllListedBack(t, maxLevel, ids, om, i, kind);
      ListsAscend(t, ids, om, i, kind);
    }
  }

  lemma AllListedBack(t: Tree, maxLevel: int, ids: map<Loc, int>, om: OrderedMesh, i: int, kind: NeighborType)
    requires IsOrderedMesh(t, ids, om) && Fits(t, maxLevel) && t.deepest <= maxLevel && 0 <= i < om.nblocks
    ensures IsMutual(om, i, kind)
  {
    forall j | j in ListOf(om.nbrmap[i], kind) ensures 0 <= j < om.nblocks && i in ListOf(om.nbrmap[j], kind) {
      ListedBack(t, maxLevel, ids, om, i, kind, j);
    }
  }

  // ----- the limit of 32-bit coordinates -----

  lemma {:induction false} RefineOneMore(t: Tree, maxLevel: int, locs: seq<Loc>, n: Loc)
    requires CanRefine(t, maxLevel, locs) && n in AfterAll(t, locs).leaves && n.level < maxLevel
    ensures CanRefine(t, maxLevel, locs + [n])
    ensures AfterAll(t, locs + [n]) == Refined(AfterAll(t, locs), n)
    decreases |locs|
  {
    if |locs| > 0 {
      RefineOneMore(Refined(t, locs[0]), maxLevel, locs[1..], n);
      assert (locs + [n])[1..] == locs[1..] + [n];
    } else {
      assert (locs + [n])[1..] == [];
    }
  }

  /** Any location of the domain can be made a leaf. */
  lemma {:induction false} CanReach(t: Tree, maxLevel: int, cell: Loc) returns (locs: seq<Loc>)
    requires t == Roots(t.rootLevel, t.nx, t.ny, t.nz) && 0 <= t.rootLevel && InDomain(t, cell)
               && cell.level <= maxLevel
    ensures CanRefine(t, maxLevel, locs) && cell in AfterAll(t, locs).leaves
    decreases cell.level
  {
    if cell.level == t.rootLevel {
      locs := [];
    } else {
      ParentInDomain(t, cell);
      locs := CanReach(t, maxLevel, Parent(cell));
      RefineOneMore(t, maxLevel, locs, Parent(cell));
      ChildOfParent(cell);
      locs := locs + [Parent(cell)];
    }
  }

  lemma ParentInDomain(t: Tree, cell: Loc)
    requires InDomain(t, cell) && cell.level > t.rootLevel
    ensures InDomain(t, Parent(cell))
  {
    DomainIsRootGrid(t, cell);
    DomainIsRootGrid(t, Parent(cell));
  }

  /** The last cell whose coordinates fit: it ends at 2^31. */
  const FAR: int := 0x3fff_ffff

  /** Blocks of one level that differ by one on one axis share a face. */
  lemma NextIsFace(a: Loc, b: Loc)
    requires a.level == b.level
    requires || b == a.(x := a.x + 1) || b == a.(y := a.y + 1) || b == a.(z := a.z + 1)
    ensures Relation(a, b) == Face
  {
    UnitSides(a.x);
    UnitSides(a.y);
    UnitSides(a.z);
  }

  /** Two children of p that share a face but end at coordinate 2^31 are not recognized. */
  lemma FarPair(p: Loc) returns (i: int, j: int)
    requires 0 <= p.level && (p.x == FAR || p.y == FAR || p.z == FAR)
    requires 0 <= p.x <= FAR && 0 <= p.y <= FAR && 0 <= p.z <= FAR
    ensures 0 <= i < 8 && 0 <= j < 8
    ensures Relation(Child(p, i), Child(p, j)) == Face && AreNeighborsByType(Child(p, i), Child(p, j)) == NotNeighbor
  {
    if p.x == FAR {
      i, j := 1, 3;
    } else if p.y == FAR {
      i, j := 2, 3;
    } else {
      i, j := 4, 5;
    }
    NextIsFace(Child(p, i), Child(p, j));
    FarKind(Child(p, i), Child(p, j));
  }

  lemma UnitSides(x: int)
    ensures ExactAxis(x, 0, x, 0) == Side(true, false)
    ensures ExactAxis(x, 0, x + 1, 0) == Side(false, true)
  {
  }

  lemma FarSide()
    ensures NarrowedAxis(2 * FAR + 1, 0, 2 * FAR + 1, 0) == Side(false, false)
  {
  }

  lemma FarKind(a: Loc, b: Loc)
    requires a.level == b.level
               && ((a.x == b.x == 2 * FAR + 1) || (a.y == b.y == 2 * FAR + 1) || (a.z == b.z == 2 * FAR + 1))
    ensures AreNeighborsByType(a, b) == NotNeighbor
  {
    FarSide();
  }

  lemma FarInDomain(t: Tree, maxLevel: int) returns (p: Loc)
    requires 0 <= t.rootLevel <= maxLevel && !Fits(t, maxLevel)
    requires 0 < t.nx <= 0x4000_0000 && 0 < t.ny <= 0x4000_0000 && 0 < t.nz <= 0x4000_0000
    ensures p.level == maxLevel - 1 && InDomain(t, p) && (p.x == FAR || p.y == FAR || p.z == FAR)
    ensures 0 <= p.x <= FAR && 0 <= p.y <= FAR && 0 <= p.z <= FAR
  {
    var d := maxLevel - t.rootLevel;
    PositiveShl(t.nx, d - 1);
    PositiveShl(t.ny, d - 1);
    PositiveShl(t.nz, d - 1);
    if Shl(t.nx, d) >= 0x8000_0000 {
      p := Loc(maxLevel - 1, FAR, 0, 0);
    } else if Shl(t.ny, d) >= 0x8000_0000 {
      p := Loc(maxLevel - 1, 0, FAR, 0);
    } else {
      p := Loc(maxLevel - 1, 0, 0, FAR);
    }
  }

  /** Refinements after which two leaves that share a face are not recognized. */
  lemma OverflowMesh(t: Tree, maxLevel: int) returns (locs: seq<Loc>, a: Loc, b: Loc)
    requires t == Roots(t.rootLevel, t.nx, t.ny, t.nz) && 0 <= t.rootLevel <= maxLevel && !Fits(t, maxLevel)
    requires 0 < t.nx <= 0x4000_0000 && 0 < t.ny <= 0x4000_0000 && 0 < t.nz <= 0x4000_0000
    ensures CanRefine(t, maxLevel, locs)
    ensures a in AfterAll(t, locs).leaves && b in AfterAll(t, locs).leaves
    ensures Relation(a, b) == Face && AreNeighborsByType(a, b) == NotNeighbor
  {
    var p := FarInDomain(t, maxLevel);
    var i, j := FarPair(p);
    a, b := Child(p, i), Child(p, j);
    locs := CanReach(t, maxLevel, p);
    RefineOneMore(t, maxLevel, locs, p);
    locs := locs + [p];
    assert a in Children(p) && b in Children(p);
  }

  /** On every mesh that refinements can reach, the test agrees with the relation. */
  ghost predicate TestIsExact(t: Tree, maxLevel: int)
  {
    forall locs, a, b :: CanRefine(t, maxLevel, locs) && a in AfterAll(t, locs).leaves && b in AfterAll(t, locs).leaves
                         ==> AreNeighborsByType(a, b) == Relation(a, b)
  }

  /** Main result: the neighbour test is right on all reachable meshes exactly when the finest coordinates fit. */
  lemma TestIsExactIff(t: Tree, maxLevel: int)
    requires t == Roots(t.rootLevel, t.nx, t.ny, t.nz) && 0 <= t.rootLevel <= maxLevel
    requires 0 < t.nx <= 0x4000_0000 && 0 < t.ny <= 0x4000_0000 && 0 < t.nz <= 0x4000_0000
    ensures TestIsExact(t, maxLevel) <==> Fits(t, maxLevel)
  {
    RootsAreForest(t.rootLevel, t.nx, t.ny, t.nz);
    if Fits(t, maxLevel) {
      forall locs, a, b | CanRefine(t, maxLevel, locs) && a in AfterAll(t, locs).leaves && b in AfterAll(t, locs).leaves
        ensures AreNeighborsByType(a, b) == Relation(a, b)
      {
        RefinementsKeepForest(t, maxLevel, locs);
        LeavesFit(AfterAll(t, locs), maxLevel, a, b);
      }
    } else {
      var locs, a, b := OverflowMesh(t, maxLevel);
    }
  }

  /** And when the test fails on two leaves, the lists miss the neighbour. */
  lemma UnrecognizedIsMissing(t: Tree, ids: map<Loc, int>, om: OrderedMesh, a: Loc, b: Loc)
    requires IsOrderedMesh(t, ids, om) && a in t.leaves && b in t.leaves
    requires Relation(a, b) == Face && AreNeighborsByType(a, b) == NotNeighbor
    ensures IsNeighbor(t, ids, a, Face, ids[b]) && ids[b] !in om.nbrmap[ids[a]].face
  {
    assert HasLists(t, ids, a, om.nbrmap[ids[a]]);
    assert IsNeighborLeaf(t, ids, a, Face, b, ids[b]);
  }
}
