/** The AMR mesh (tools/commbench/src/amr/mesh.h and mesh.cc): refinement, numbering and neighbour lists. */
module Mesh {
  import opened Sums
  import opened Octree
  import opened Covering
  import opened Neighbors
  import opened NeighborLists

  // ----- ordered lists without repetitions -----

  /** std::sort followed by erasing what std::unique moves to the end. */
  method SortUnique(s: seq<int>) returns (r: seq<int>)
    ensures IsAscending(r) && forall x :: x in r <==> x in s
  {
    r := [];
    for i := 0 to |s|
      invariant IsAscending(r) && forall x :: x in r <==> x in s[..i]
    {
      assert s[..i + 1] == s[..i] + [s[i]];
      r := InsertUnique(r, s[i]);
    }
    assert s[..|s|] == s;
  }

  method InsertUnique(s: seq<int>, x: int) returns (r: seq<int>)
    requires IsAscending(s)
    ensures IsAscending(r) && forall y :: y in r <==> y in s || y == x
  {
    var i := 0;
    while i < |s| && s[i] < x
      invariant 0 <= i <= |s| && forall k :: 0 <= k < i ==> s[k] < x
    {
      i := i + 1;
    }
    if i < |s| && s[i] == x {
      return s;
    }
    r := s[..i] + [x] + s[i..];
    assert s == s[..i] + s[i..];
  }

  // ----- numbering -----

  /** The map after the leaves were given the numbers from next on. */
  function Numbered(ids: map<Loc, int>, leaves: seq<Loc>, next: int): map<Loc, int>
  {
    if |leaves| == 0 then ids
    else Numbered(ids, leaves[..|leaves| - 1], next)[leaves[|leaves| - 1] := next + |leaves| - 1]
  }

  lemma {:induction false} NumberedAppend(ids: map<Loc, int>, a: seq<Loc>, b: seq<Loc>, next: int)
    ensures Numbered(ids, a + b, next) == Numbered(Numbered(ids, a, next), b, next + |a|)
  {
    if b == [] {
      assert a + b == a;
    } else {
      NumberedAppend(ids, a, b[..|b| - 1], next);
      assert (a + b)[..|a + b| - 1] == a + b[..|b| - 1];
    }
  }

  /** Distinct leaves get their positions. */
  lemma {:induction false} NumberedAt(leaves: seq<Loc>)
    requires Distinct(leaves)
    ensures var ids := Numbered(map[], leaves, 0);
            && (forall l :: l in ids <==> l in leaves)
            && (forall i :: 0 <= i < |leaves| ==> ids[leaves[i]] == i)
  {
    if |leaves| > 0 {
      var n := |leaves| - 1;
      NumberedAt(leaves[..n]);
      assert leaves == leaves[..n] + [leaves[n]];
      assert leaves[n] !in leaves[..n];
    }
  }

  lemma EachIsNumbered(order: seq<Loc>, ids: map<Loc, int>)
    requires Distinct(order) && ids == Numbered(map[], order, 0)
    ensures forall l :: l in ids <==> l in order
    ensures forall a :: a in ids ==> 0 <= ids[a] < |order| && order[ids[a]] == a
    ensures forall i :: 0 <= i < |order| ==> IsNumberOf(ids, i)
  {
    NumberedAt(order);
    forall a | a in ids ensures 0 <= ids[a] < |order| && order[ids[a]] == a {
      var i :| 0 <= i < |order| && order[i] == a;
    }
    forall i | 0 <= i < |order| ensures IsNumberOf(ids, i) {
      assert order[i] in ids;
    }
  }

  lemma CountOfAll(order: seq<Loc>, all: set<Loc>)
    requires Distinct(order) && forall l :: l in order <==> l in all
    ensures |all| == |order|
  {
    DistinctSeqSize(order);
    assert all == set x | x in order;
  }

  /** The depth-first numbers of the leaves are a numbering. */
  lemma NumbersLeaves(t: Tree, roots: seq<Loc>)
    requires IsForest(t) && ListsRoots(t, roots)
    ensures var order := LeafOrder(t, roots); IsNumbering(t, Numbered(map[], order, 0), |order|)
  {
    var order := LeafOrder(t, roots);
    NumberingIsBijection(t, roots);
    EachIsNumbered(order, Numbered(map[], order, 0));
    CountOfAll(order, t.leaves);
  }

  /** The ordered mesh for one order of the roots: depth-first numbers and the lists of the lookup. */
  ghost predicate IsBuiltFrom(t: Tree, roots: seq<Loc>, om: OrderedMesh)
  {
    ListsRoots(t, roots) && IsOrderedMesh(t, Numbered(map[], LeafOrder(t, roots), 0), om)
  }

  ghost predicate IsBuilt(t: Tree, om: OrderedMesh)
  {
    exists roots :: IsBuiltFrom(t, roots, om)
  }

  // ----- the root level -----

  /** The least level at which 2^level covers m. */
  ghost predicate IsRootLevel(m: int, level: int)
  {
    0 <= level && Shl(1, level) >= m && forall l: nat :: l < level ==> Shl(1, l) < m
  }

  lemma ShlOneGrows(l: nat)
    ensures Shl(1, l) >= 1 && Shl(1, l + 1) == 2 * Shl(1, l)
  {
    PositiveShl(1, l);
  }

  method FindRootLevel(m: int) returns (level: int)
    requires m <= 0x4000_0000
    ensures IsRootLevel(m, level)
  {
    level := 0;
    while Shl(1, level) < m
      invariant 0 <= level && forall l: nat :: l < level ==> Shl(1, l) < m
      decreases m - Shl(1, level)
    {
      ShlOneGrows(level);
      level := level + 1;
    }
  }

  /** Mesh::GetChildLocs. */
  method GetChildLocs(loc: Loc) returns (children: seq<Loc>)
    ensures |children| == 8 && forall i :: 0 <= i < 8 ==> children[i] == Child(loc, i)
  {
    children := [];
    for i := 0 to 8
      invariant |children| == i && forall k :: 0 <= k < i ==> children[k] == Child(loc, k)
    {
      children := children + [Loc(loc.level + 1, 2 * loc.x + i % 2, 2 * loc.y + i / 2 % 2, 2 * loc.z + i / 4 % 2)];
    }
  }

  function FirstChildren(loc: Loc, n: nat): set<Loc>
    requires n <= 8
  {
    set k | 0 <= k < n :: Child(loc, k)
  }

  lemma FirstChildrenNext(loc: Loc, n: nat)
    requires n < 8
    ensures FirstChildren(loc, n + 1) == FirstChildren(loc, n) + {Child(loc, n)}
    ensures FirstChildren(loc, 8) == Children(loc)
  {
  }

  predicate Passes(nl: Loc, ids: map<Loc, int>, loc: Loc, id: int, kind: NeighborType)
  {
    nl in ids && ids[nl] != id && AreNeighborsByType(loc, nl) == kind
  }

  predicate IsHit(nl: Loc, ids: map<Loc, int>, loc: Loc, id: int, kind: NeighborType, x: int)
  {
    Passes(nl, ids, loc, id, kind) && ids[nl] == x
  }

  ghost predicate IsFoundIn(covering: seq<Loc>, ids: map<Loc, int>, loc: Loc, id: int, kind: NeighborType, x: int)
  {
    HoldsIn(covering, nl => IsHit(nl, ids, loc, id, kind, x))
  }

  lemma FoundInCovering(t: Tree, covering: seq<Loc>, ids: map<Loc, int>, loc: Loc, id: int, kind: NeighborType,
                        off: Vec, x: int)
    requires 0 <= t.rootLevel <= loc.level && covering == CoveringLeaves(t, Shifted(loc, off))
    ensures IsFoundIn(covering, ids, loc, id, kind, x) <==> IsFoundAt(t, ids, loc, id, kind, off, x)
  {
    if IsFoundIn(covering, ids, loc, id, kind, x) {
      var k :| 0 <= k < |covering| && IsHit(covering[k], ids, loc, id, kind, x);
      MetIsHit(t, covering, ids, loc, id, kind, off, covering[k], x);
    }
    if IsFoundAt(t, ids, loc, id, kind, off, x) {
      var nl :| IsMet(t, ids, loc, id, kind, off, nl) && ids[nl] == x;
      MetIsHit(t, covering, ids, loc, id, kind, off, nl, x);
      var k :| 0 <= k < |covering| && covering[k] == nl;
    }
  }

  lemma MetIsHit(t: Tree, covering: seq<Loc>, ids: map<Loc, int>, loc: Loc, id: int, kind: NeighborType,
                 off: Vec, nl: Loc, x: int)
    requires 0 <= t.rootLevel <= loc.level && covering == CoveringLeaves(t, Shifted(loc, off))
    ensures nl in covering && IsHit(nl, ids, loc, id, kind, x)
            <==> IsMet(t, ids, loc, id, kind, off, nl) && ids[nl] == x
  {
  }

  /** The loop of ProcessOffset over the covering leaves. */
  method Gather(covering: seq<Loc>, ids: map<Loc, int>, loc: Loc, id: int, nbrs: seq<int>, kind: NeighborType)
    returns (nbrs': seq<int>)
    ensures forall x :: x in nbrs' <==> x in nbrs || IsFoundIn(covering, ids, loc, id, kind, x)
  {
    nbrs' := nbrs;
    for i := 0 to |covering|
      invariant forall x :: x in nbrs' <==> x in nbrs || IsFoundIn(covering[..i], ids, loc, id, kind, x)
    {
      var nl := covering[i];
      FoundInNext(covering, i, ids, loc, id, kind);
      if nl in ids && ids[nl] != id && AreNeighborsByType(loc, nl) == kind {
        nbrs' := nbrs' + [ids[nl]];
      }
    }
    assert covering[..|covering|] == covering;
  }

  lemma FoundInNext(covering: seq<Loc>, i: nat, ids: map<Loc, int>, loc: Loc, id: int, kind: NeighborType)
    requires i < |covering|
    ensures forall x :: IsFoundIn(covering[..i + 1], ids, loc, id, kind, x)
                        <==> IsFoundIn(covering[..i], ids, loc, id, kind, x)
                             || IsHit(covering[i], ids, loc, id, kind, x)
  {
    forall x ensures IsFoundIn(covering[..i + 1], ids, loc, id, kind, x)
                     <==> IsFoundIn(covering[..i], ids, loc, id, kind, x)
                          || IsHit(covering[i], ids, loc, id, kind, x)
    {
      HitInNext(covering, i, ids, loc, id, kind, x);
    }
  }

  lemma HitInNext(covering: seq<Loc>, i: nat, ids: map<Loc, int>, loc: Loc, id: int, kind: NeighborType, x: int)
    requires i < |covering|
    ensures IsFoundIn(covering[..i + 1], ids, loc, id, kind, x)
            <==> IsFoundIn(covering[..i], ids, loc, id, kind, x) || IsHit(covering[i], ids, loc, id, kind, x)
  {
    HoldsInNext(covering, i, nl => IsHit(nl, ids, loc, id, kind, x));
  }

  ghost predicate HoldsIn<T>(s: seq<T>, p: T -> bool)
  {
    exists k :: 0 <= k < |s| && p(s[k])
  }

  lemma HoldsInNext<T>(s: seq<T>, i: nat, p: T -> bool)
    requires i < |s|
    ensures HoldsIn(s[..i + 1], p) <==> HoldsIn(s[..i], p) || p(s[i])
  {
    var a, b := s[..i], s[..i + 1];
    assert b[i] == s[i];
    if HoldsIn(a, p) {
      var k :| 0 <= k < |a| && p(a[k]);
      assert b[k] == a[k];
    }
    if HoldsIn(b, p) {
      var k :| 0 <= k < |b| && p(b[k]);
      assert k < i ==> a[k] == b[k];
    }
  }

  /** roots are the roots among the visited blocks; rest are those to come. */
  ghost predicate ListsVisitedRoots(t: Tree, rest: set<Loc>, roots: seq<Loc>)
  {
    && Distinct(roots)
    && (forall n: Loc :: n in roots <==> n in t.active && n !in rest && n.level == t.rootLevel)
  }

  lemma VisitNext(t: Tree, rest: set<Loc>, roots: seq<Loc>, l: Loc)
    requires l in rest && l in t.active && ListsVisitedRoots(t, rest, roots)
    ensures ListsVisitedRoots(t, rest - {l}, if l.level == t.rootLevel then roots + [l] else roots)
  {
    if l.level == t.rootLevel {
      assert l !in roots;
      assert (roots + [l])[|roots|] == l;
    }
  }

  class Mesh {
    var rootLevel: int
    var maxLevel: int
    var currentMaxLevel: int
    var leaves: set<Loc>
    var active: set<Loc>
    ghost const nx: int
    ghost const ny: int
    ghost const nz: int

    ghost function View(): Tree
      reads this
    {
      Tree(rootLevel, nx, ny, nz, currentMaxLevel, leaves, active)
    }

    ghost predicate Valid()
      reads this
    {
      IsForest(View()) && currentMaxLevel <= maxLevel
    }

    /** Sizes above 2^30 would overflow the shift that finds the root level. */
    constructor (nx: int, ny: int, nz: int, maxLevel: int)
      requires 0 < nx <= 0x4000_0000 && 0 < ny <= 0x4000_0000 && 0 < nz <= 0x4000_0000
      requires forall l :: IsRootLevel(Max(nx, Max(ny, nz)), l) ==> l <= maxLevel
      ensures Valid() && this.maxLevel == maxLevel
      ensures IsRootLevel(Max(nx, Max(ny, nz)), rootLevel) && View() == Roots(rootLevel, nx, ny, nz)
    {
      this.nx, this.ny, this.nz := nx, ny, nz;
      this.maxLevel := maxLevel;
      var level := FindRootLevel(Max(nx, Max(ny, nz)));
      rootLevel := level;
      leaves, active := {}, {};
      currentMaxLevel := level;
      new;
      InitializeRoots(nx, ny, nz);
      RootsAreForest(level, nx, ny, nz);
    }

    method InitializeRoots(nx: int, ny: int, nz: int)
      requires leaves == active == {}
      modifies this`leaves, this`active
      ensures leaves == active == RootGrid(rootLevel, nx, ny, nz)
    {
      for z := 0 to (if nz > 0 then nz else 0)
        invariant leaves == active == RootGrid(rootLevel, nx, ny, z)
      {
        for y := 0 to (if ny > 0 then ny else 0)
          invariant leaves == active
          invariant forall n: Loc :: n in leaves <==> n in RootGrid(rootLevel, nx, ny, z) || InRow(n, nx, y, z)
        {
          AddRow(nx, y, z);
        }
        assert forall n: Loc :: n in leaves <==> n in RootGrid(rootLevel, nx, ny, z + 1);
      }
    }

    /** The blocks of plane z in the first rows. */
    predicate InRow(n: Loc, nx: int, rows: int, z: int)
      reads this
    {
      n.level == rootLevel && 0 <= n.x < nx && 0 <= n.y < rows && n.z == z
    }

    method AddRow(nx: int, y: int, z: int)
      requires leaves == active
      modifies this`leaves, this`active
      ensures leaves == active
      ensures forall n: Loc :: n in leaves
                <==> n in old(leaves) || (n.level == rootLevel && 0 <= n.x < nx && n.y == y && n.z == z)
    {
      for x := 0 to (if nx > 0 then nx else 0)
        invariant leaves == active
        invariant forall n: Loc :: n in leaves
                    <==> n in old(leaves) || (n.level == rootLevel && 0 <= n.x < x && n.y == y && n.z == z)
      {
        leaves := leaves + {Loc(rootLevel, x, y, z)};
        active := active + {Loc(rootLevel, x, y, z)};
      }
    }

    method Refine(loc: Loc)
      requires Valid() && loc in leaves && loc.level < maxLevel
      modifies this`leaves, this`active, this`currentMaxLevel
      ensures Valid() && View() == Refined(old(View()), loc)
    {
      RefinedIsForest(View(), loc);
      leaves := leaves - {loc};
      currentMaxLevel := Max(currentMaxLevel, loc.level + 1);
      var children := GetChildLocs(loc);
      for i := 0 to 8
        invariant currentMaxLevel == Max(old(currentMaxLevel), loc.level + 1)
        invariant leaves == old(leaves) - {loc} + FirstChildren(loc, i)
        invariant active == old(active) + FirstChildren(loc, i)
      {
        FirstChildrenNext(loc, i);
        leaves := leaves + {children[i]};
        active := active + {children[i]};
      }
    }

    method DFSAssign(loc: Loc, ids: map<Loc, int>, next: int) returns (ids': map<Loc, int>, next': int)
      requires Valid() && (loc in active ==> loc.level <= currentMaxLevel)
      ensures loc in active ==>
                ids' == Numbered(ids, LeavesUnder(View(), loc), next) && next' == next + |LeavesUnder(View(), loc)|
      ensures loc !in active ==> ids' == ids && next' == next
      decreases currentMaxLevel - loc.level + 1
    {
      ids', next' := ids, next;
      if loc !in active {
        return;
      }
      ghost var t := View();
      if loc in leaves {
        ids' := ids'[loc := next'];
        next' := next' + 1;
        assert LeavesUnder(t, loc) == [loc];
        assert [loc][..0] == [];
      } else {
        assert HasChildren(t, loc);
        var children := GetChildLocs(loc);
        for i := 0 to 8
          invariant ids' == Numbered(ids, LeavesUnderChildren(t, loc, i), next)
          invariant next' == next + |LeavesUnderChildren(t, loc, i)|
        {
          NumberedAppend(ids, LeavesUnderChildren(t, loc, i), LeavesUnder(t, Child(loc, i)), next);
          ids', next' := DFSAssign(children[i], ids', next');
        }
      }
    }

    /** The lambda of GetCoveringLeaves: appends the leaves at or below n. */
    method Recurse(n: Loc, found: seq<Loc>) returns (found': seq<Loc>)
      requires Valid() && n in active
      ensures found' == found + LeavesUnder(View(), n)
      decreases currentMaxLevel - n.level
    {
      ghost var t := View();
      if n in leaves {
        return found + [n];
      }
      assert HasChildren(t, n);
      var children := GetChildLocs(n);
      found' := found;
      for i := 0 to 8
        invariant found' == found + LeavesUnderChildren(t, n, i)
      {
        found' := Recurse(children[i], found');
      }
    }

    method GetCoveringLeaves(n: Loc) returns (found: seq<Loc>)
      requires Valid() && rootLevel <= n.level
      ensures found == CoveringLeaves(View(), n)
    {
      var node := n;
      while node.level > rootLevel && node !in active
        invariant rootLevel <= node.level && FirstActive(View(), node) == FirstActive(View(), n)
        decreases node.level
      {
        node := Parent(node);
      }
      if node !in active {
        return [];
      }
      found := Recurse(node, []);
    }

    method ProcessOffset(loc: Loc, id: int, ids: map<Loc, int>, nbrs: seq<int>, off: Vec, kind: NeighborType)
      returns (nbrs': seq<int>)
      requires Valid() && rootLevel <= loc.level
      ensures IsAscending(nbrs')
      ensures forall x :: x in nbrs' <==> x in nbrs || IsFoundAt(View(), ids, loc, id, kind, off, x)
    {
      var covering := GetCoveringLeaves(Shifted(loc, off));
      nbrs' := Gather(covering, ids, loc, id, nbrs, kind);
      forall x ensures IsFoundIn(covering, ids, loc, id, kind, x) <==> IsFoundAt(View(), ids, loc, id, kind, off, x) {
        FoundInCovering(View(), covering, ids, loc, id, kind, off, x);
      }
      nbrs' := SortUnique(nbrs');
    }

    /** One of the three loops of BuildNeighbors. */
    method ProcessOffsets(loc: Loc, id: int, ids: map<Loc, int>, offsets: seq<Vec>, kind: NeighborType)
      returns (nbrs: seq<int>)
      requires Valid() && rootLevel <= loc.level
      ensures Collects(View(), ids, loc, id, kind, offsets, nbrs)
    {
      ghost var t := View();
      nbrs := [];
      for i := 0 to |offsets|
        invariant Collects(t, ids, loc, id, kind, offsets[..i], nbrs)
      {
        ghost var before := nbrs;
        nbrs := ProcessOffset(loc, id, ids, nbrs, offsets[i], kind);
        CollectsNext(t, ids, loc, id, kind, offsets, i, before, nbrs);
      }
      assert offsets[..|offsets|] == offsets;
    }

    method BuildNeighbors(loc: Loc, id: int, ids: map<Loc, int>) returns (node: Node)
      requires Valid() && rootLevel <= loc.level && loc in ids && ids[loc] == id
      ensures HasLists(View(), ids, loc, node)
    {
      var face := ProcessOffsets(loc, id, ids, FACE_OFFSETS, Face);
      var edge := ProcessOffsets(loc, id, ids, EDGE_OFFSETS, Edge);
      var vertex := ProcessOffsets(loc, id, ids, VERTEX_OFFSETS, Vertex);
      node := Node(face, edge, vertex);
    }

    /** One root of the loop in GetOrderedMesh. */
    method AssignRoot(l: Loc, ids: map<Loc, int>, nextId: int, ghost roots: seq<Loc>)
      returns (ids': map<Loc, int>, nextId': int)
      requires Valid() && l in active
      requires ids == Numbered(map[], LeafOrder(View(), roots), 0) && nextId == |LeafOrder(View(), roots)|
      ensures ids' == Numbered(map[], LeafOrder(View(), roots + [l]), 0)
      ensures nextId' == |LeafOrder(View(), roots + [l])|
    {
      assert (roots + [l])[..|roots|] == roots;
      NumberedAppend(map[], LeafOrder(View(), roots), LeavesUnder(View(), l), 0);
      ids', nextId' := DFSAssign(l, ids, nextId);
    }

    /** Numbers the blocks, visiting the active set in any order. */
    method AssignIds() returns (ids: map<Loc, int>, nextId: int, ghost roots: seq<Loc>)
      requires Valid()
      ensures ListsRoots(View(), roots)
      ensures ids == Numbered(map[], LeafOrder(View(), roots), 0) && nextId == |LeafOrder(View(), roots)|
    {
      ghost var t := View();
      ids, nextId, roots := map[], 0, [];
      var rest := active;
      while rest != {}
        invariant rest <= active && ListsVisitedRoots(t, rest, roots)
        invariant ids == Numbered(map[], LeafOrder(t, roots), 0) && nextId == |LeafOrder(t, roots)|
        decreases |rest|
      {
        var l :| l in rest;
        VisitNext(t, rest, roots, l);
        rest := rest - {l};
        if l.level == rootLevel {
          ids, nextId := AssignRoot(l, ids, nextId, roots);
          roots := roots + [l];
        }
      }
    }

    method GetOrderedMesh() returns (om: OrderedMesh)
      requires Valid()
      ensures IsBuilt(View(), om)
    {
      ghost var t := View();
      var idmap, nextId;
      ghost var roots;
      idmap, nextId, roots := AssignIds();
      NumbersLeaves(t, roots);
      var nbrmap := seq(nextId, _ => Node([], [], []));
      var rest := idmap.Keys;
      while rest != {}
        invariant rest <= idmap.Keys && |nbrmap| == nextId
        invariant forall l :: l in idmap && l !in rest ==> HasLists(t, idmap, l, nbrmap[idmap[l]])
        decreases |rest|
      {
        var loc :| loc in rest;
        rest := rest - {loc};
        assert loc in t.active;
        var node := BuildNeighbors(loc, idmap[loc], idmap);
        nbrmap := nbrmap[idmap[loc] := node];
      }
      om := OrderedMesh(nextId, nbrmap);
      assert IsBuiltFrom(t, roots, om);
    }
  }

  lemma CollectsNext(t: Tree, ids: map<Loc, int>, loc: Loc, id: int, kind: NeighborType, offsets: seq<Vec>, i: nat,
                     before: seq<int>, after: seq<int>)
    requires 0 <= t.rootLevel <= loc.level && i < |offsets| && Collects(t, ids, loc, id, kind, offsets[..i], before)
    requires IsAscending(after)
    requires forall x :: x in after <==> x in before || IsFoundAt(t, ids, loc, id, kind, offsets[i], x)
    ensures Collects(t, ids, loc, id, kind, offsets[..i + 1], after)
  {
    forall x ensures IsFound(t, ids, loc, id, kind, offsets[..i + 1], x)
                     <==> IsFound(t, ids, loc, id, kind, offsets[..i], x)
                          || IsFoundAt(t, ids, loc, id, kind, offsets[i], x)
    {
      FoundNext(t, ids, loc, id, kind, offsets, i, x);
    }
  }

  lemma FoundNext(t: Tree, ids: map<Loc, int>, loc: Loc, id: int, kind: NeighborType, offsets: seq<Vec>, i: nat, x: int)
    requires 0 <= t.rootLevel <= loc.level && i < |offsets|
    ensures IsFound(t, ids, loc, id, kind, offsets[..i + 1], x)
            <==> IsFound(t, ids, loc, id, kind, offsets[..i], x) || IsFoundAt(t, ids, loc, id, kind, offsets[i], x)
  {
    HoldsInNext(offsets, i, off => IsFoundAt(t, ids, loc, id, kind, off, x));
    FoundIsHolds(t, ids, loc, id, kind, offsets[..i], x);
    FoundIsHolds(t, ids, loc, id, kind, offsets[..i + 1], x);
  }

  lemma FoundIsHolds(t: Tree, ids: map<Loc, int>, loc: Loc, id: int, kind: NeighborType, offsets: seq<Vec>, x: int)
    requires 0 <= t.rootLevel <= loc.level
    ensures IsFound(t, ids, loc, id, kind, offsets, x)
            <==> HoldsIn(offsets, off => IsFoundAt(t, ids, loc, id, kind, off, x))
  {
  }
}
