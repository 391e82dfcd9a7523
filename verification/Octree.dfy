/**
 Octree locations and the trees of active blocks (tools/commbench/src/amr/mesh_utils.h and mesh.h). A location is a
 refinement level and integer coordinates at that level.
 */
module Octree {
  datatype Loc = Loc(level: int, x: int, y: int, z: int)

  /** Shifts by d bits; the right shift rounds down, for negative numbers too. */
  function Shl(x: int, d: nat): int
  {
    if d == 0 then x else 2 * Shl(x, d - 1)
  }

  function Shr(x: int, d: nat): int
    decreases d
  {
    if d == 0 then x else Shr(x / 2, d - 1)
  }

  lemma {:induction false} ShlAdd(x: int, y: int, d: nat)
    ensures Shl(x + y, d) == Shl(x, d) + Shl(y, d)
  {
    if d > 0 {
      ShlAdd(x, y, d - 1);
    }
  }

  lemma {:induction false} ShlMonotone(x: int, y: int, d: nat)
    ensures x < y <==> Shl(x, d) < Shl(y, d)
    ensures x == y <==> Shl(x, d) == Shl(y, d)
  {
    if d > 0 {
      ShlMonotone(x, y, d - 1);
    }
  }

  lemma {:induction false} ShlTwice(x: int, d: nat, e: nat)
    ensures Shl(Shl(x, d), e) == Shl(x, d + e)
  {
    if e > 0 {
      ShlTwice(x, d, e - 1);
    }
  }

  /** y >> d == x exactly when y lies in the interval that x covers d levels further down. */
  lemma {:induction false} ShrIsRange(y: int, d: nat, x: int)
    ensures Shr(y, d) == x <==> Shl(x, d) <= y < Shl(x + 1, d)
    decreases d
  {
    if d > 0 {
      ShrIsRange(y / 2, d - 1, x);
    }
  }

  /** Loc::Parent. */
  function Parent(n: Loc): Loc
  {
    if n.level > 0 then Loc(n.level - 1, n.x / 2, n.y / 2, n.z / 2) else Loc(-1, -1, -1, -1)
  }

  /** Child number i: bit 0 of i goes to x, bit 1 to y, bit 2 to z. */
  function Child(n: Loc, i: int): Loc
    requires 0 <= i < 8
  {
    Loc(n.level + 1, 2 * n.x + i % 2, 2 * n.y + i / 2 % 2, 2 * n.z + i / 4 % 2)
  }

  function ChildIndex(n: Loc): (i: int)
    ensures 0 <= i < 8
  {
    n.x % 2 + 2 * (n.y % 2) + 4 * (n.z % 2)
  }

  lemma ParentOfChild(n: Loc, i: int)
    requires n.level >= 0 && 0 <= i < 8
    ensures Parent(Child(n, i)) == n && ChildIndex(Child(n, i)) == i
  {
  }

  lemma ChildOfParent(n: Loc)
    requires n.level > 0
    ensures Child(Parent(n), ChildIndex(n)) == n
  {
    var i := ChildIndex(n);
    assert i % 2 == n.x % 2 && i / 2 % 2 == n.y % 2 && i / 4 % 2 == n.z % 2;
  }

  /** The ancestor of n at level l. */
  function Ancestor(n: Loc, l: int): (a: Loc)
    requires 0 <= l <= n.level
    ensures a.level == l
    decreases n.level
  {
    if n.level == l then n else Ancestor(Parent(n), l)
  }

  lemma {:induction false} AncestorIsShift(n: Loc, l: int)
    requires 0 <= l <= n.level
    ensures Ancestor(n, l) == Loc(l, Shr(n.x, n.level - l), Shr(n.y, n.level - l), Shr(n.z, n.level - l))
    decreases n.level
  {
    if n.level > l {
      AncestorIsShift(Parent(n), l);
    }
  }

  lemma {:induction false} AncestorOfAncestor(n: Loc, k: int, l: int)
    requires 0 <= l <= k <= n.level
    ensures Ancestor(Ancestor(n, k), l) == Ancestor(n, l)
    decreases n.level
  {
    if n.level > k {
      AncestorOfAncestor(Parent(n), k, l);
    }
  }

  /** One level below the ancestor at level l is one of its children. */
  lemma AncestorStep(n: Loc, l: int)
    requires 0 <= l < n.level
    ensures Parent(Ancestor(n, l + 1)) == Ancestor(n, l)
    ensures Ancestor(n, l + 1) == Child(Ancestor(n, l), ChildIndex(Ancestor(n, l + 1)))
  {
    AncestorOfAncestor(n, l + 1, l);
    ChildOfParent(Ancestor(n, l + 1));
  }

  /** n is d itself or lies above it. */
  predicate IsAbove(n: Loc, d: Loc)
  {
    0 <= n.level <= d.level && Ancestor(d, n.level) == n
  }

  // ----- trees of blocks -----

  /** The state of a mesh: the root grid, a bound on the levels, and the leaf and active blocks. */
  datatype Tree = Tree(rootLevel: int, nx: int, ny: int, nz: int, deepest: int, leaves: set<Loc>, active: set<Loc>)

  predicate InRootGrid(t: Tree, n: Loc)
  {
    n.level == t.rootLevel && 0 <= n.x < t.nx && 0 <= n.y < t.ny && 0 <= n.z < t.nz
  }

  /** The parent of an active block below the root level is active and refined. */
  predicate HasParent(t: Tree, n: Loc)
  {
    n.level > t.rootLevel ==> Parent(n) in t.active && Parent(n) !in t.leaves
  }

  /** All children of a refined block are active. */
  predicate HasChildren(t: Tree, n: Loc)
  {
    n.level < t.deepest && forall i :: 0 <= i < 8 ==> Child(n, i) in t.active
  }

  /** The structure every sequence of refinements keeps. */
  ghost predicate IsForest(t: Tree)
  {
    && 0 <= t.rootLevel <= t.deepest && t.leaves <= t.active
    && (forall n :: n in t.active ==> t.rootLevel <= n.level <= t.deepest)
    && (forall n: Loc {:trigger HasParent(t, n)} :: n in t.active ==> HasParent(t, n))
    && (forall n :: n in t.active && n !in t.leaves ==> HasChildren(t, n))
    && (forall n: Loc :: n.level == t.rootLevel ==> (n in t.active <==> InRootGrid(t, n)))
  }

  function RootGrid(rootLevel: int, nx: int, ny: int, nz: int): (g: set<Loc>)
    ensures forall n: Loc :: n in g <==> n.level == rootLevel && 0 <= n.x < nx && 0 <= n.y < ny && 0 <= n.z < nz
  {
    set x, y, z | 0 <= x < nx && 0 <= y < ny && 0 <= z < nz :: Loc(rootLevel, x, y, z)
  }

  /** The mesh of the constructor: unrefined roots. */
  function Roots(rootLevel: int, nx: int, ny: int, nz: int): Tree
  {
    Tree(rootLevel, nx, ny, nz, rootLevel, RootGrid(rootLevel, nx, ny, nz), RootGrid(rootLevel, nx, ny, nz))
  }

  lemma RootsAreForest(rootLevel: int, nx: int, ny: int, nz: int)
    requires 0 <= rootLevel
    ensures IsForest(Roots(rootLevel, nx, ny, nz))
  {
  }

  function Children(n: Loc): (c: set<Loc>)
    ensures forall i :: 0 <= i < 8 ==> Child(n, i) in c
    ensures forall d :: d in c ==> exists i :: 0 <= i < 8 && Child(n, i) == d
  {
    set i | 0 <= i < 8 :: Child(n, i)
  }

  /** Mesh::Refine. */
  function Refined(t: Tree, n: Loc): Tree
  {
    t.(deepest := if t.deepest >= n.level + 1 then t.deepest else n.level + 1,
       leaves := t.leaves - {n} + Children(n), active := t.active + Children(n))
  }

  lemma ParentIsRefined(t: Tree, n: Loc)
    requires IsForest(t) && n in t.active && n.level > t.rootLevel
    ensures Parent(n) in t.active && Parent(n) !in t.leaves
  {
    assert HasParent(t, n);
  }

  /** A leaf's children are not active. */
  lemma LeafHasNoChildren(t: Tree, n: Loc, i: int)
    requires IsForest(t) && n in t.leaves && 0 <= i < 8
    ensures Child(n, i) !in t.active
  {
    ParentOfChild(n, i);
    if Child(n, i) in t.active {
      ParentIsRefined(t, Child(n, i));
    }
  }

  /** Refining a leaf leaves the parents of all blocks refined. */
  lemma ParentsStayRefined(t: Tree, n: Loc, d: Loc)
    requires IsForest(t) && n in t.leaves && d in t.active + Children(n)
    ensures HasParent(Refined(t, n), d)
  {
    forall i | 0 <= i < 8 ensures Child(n, i) !in t.active {
      LeafHasNoChildren(t, n, i);
    }
    if d in Children(n) {
      var i :| 0 <= i < 8 && Child(n, i) == d;
      ParentOfChild(n, i);
    } else if d.level > t.rootLevel {
      ParentIsRefined(t, d);
    }
  }

  lemma RefinedIsForest(t: Tree, n: Loc)
    requires IsForest(t) && n in t.leaves
    ensures IsForest(Refined(t, n))
  {
    var r := Refined(t, n);
    forall d: Loc | d in r.active ensures HasParent(r, d) {
      ParentsStayRefined(t, n, d);
    }
    forall d: Loc | d.level == t.rootLevel ensures d in r.active <==> InRootGrid(r, d) {
      RootsStay(t, n, d);
    }
    forall d: Loc | d in r.active && d !in r.leaves ensures HasChildren(r, d) {
      ChildrenStayActive(t, n, d);
    }
  }

  lemma ChildrenStayActive(t: Tree, n: Loc, d: Loc)
    requires IsForest(t) && n in t.leaves && d in t.active + Children(n) && d !in t.leaves - {n} + Children(n)
    ensures HasChildren(Refined(t, n), d)
  {
    if d != n {
      assert HasChildren(t, d);
    }
  }

  lemma RootsStay(t: Tree, n: Loc, d: Loc)
    requires IsForest(t) && n in t.leaves && d.level == t.rootLevel
    ensures d in Refined(t, n).active <==> InRootGrid(t, d)
  {
  }

  /** A run of refinements, each of a leaf above the level limit. */
  ghost predicate CanRefine(t: Tree, maxLevel: int, locs: seq<Loc>)
    decreases |locs|
  {
    |locs| > 0 ==>
      locs[0] in t.leaves && locs[0].level < maxLevel && CanRefine(Refined(t, locs[0]), maxLevel, locs[1..])
  }

  function AfterAll(t: Tree, locs: seq<Loc>): Tree
    decreases |locs|
  {
    if |locs| == 0 then t else AfterAll(Refined(t, locs[0]), locs[1..])
  }

  /** Every mesh reached from the constructor's by refinements is a forest within the level limit. */
  lemma {:induction false} RefinementsKeepForest(t: Tree, maxLevel: int, locs: seq<Loc>)
    requires IsForest(t) && t.deepest <= maxLevel && CanRefine(t, maxLevel, locs)
    ensures var r := AfterAll(t, locs);
            && IsForest(r) && r.deepest <= maxLevel && r.rootLevel == t.rootLevel
            && (r.nx, r.ny, r.nz) == (t.nx, t.ny, t.nz)
    decreases |locs|
  {
    if |locs| > 0 {
      RefinedIsForest(t, locs[0]);
      RefinementsKeepForest(Refined(t, locs[0]), maxLevel, locs[1..]);
    }
  }

  // ----- what a forest looks like -----

  /** All ancestors of an active block down to the root level are active, and those above it are refined. */
  lemma {:induction false} AncestorsActive(t: Tree, n: Loc, l: int)
    requires IsForest(t) && n in t.active && t.rootLevel <= l <= n.level
    ensures Ancestor(n, l) in t.active
    ensures l < n.level ==> Ancestor(n, l) !in t.leaves
    decreases n.level
  {
    if l < n.level {
      assert HasParent(t, n);
      AncestorsActive(t, Parent(n), l);
    }
  }

  /** No leaf lies above another leaf. */
  lemma LeavesApart(t: Tree, a: Loc, b: Loc)
    requires IsForest(t) && a in t.leaves && b in t.leaves && IsAbove(a, b)
    ensures a == b
  {
    AncestorsActive(t, b, a.level);
  }

  /** The leaf above cell, found by walking down from the active block at level l. */
  lemma {:induction false} LeafAbove(t: Tree, cell: Loc, l: int) returns (leaf: Loc)
    requires IsForest(t) && t.rootLevel <= l <= cell.level && cell.level >= t.deepest && Ancestor(cell, l) in t.active
    ensures leaf in t.leaves && IsAbove(leaf, cell)
    decreases t.deepest - l
  {
    leaf := Ancestor(cell, l);
    if leaf !in t.leaves {
      assert HasChildren(t, leaf);
      AncestorStep(cell, l);
      leaf := LeafAbove(t, cell, l + 1);
    }
  }

  lemma AboveTogether(a: Loc, b: Loc, cell: Loc)
    requires IsAbove(a, cell) && IsAbove(b, cell) && a.level <= b.level
    ensures IsAbove(a, b)
  {
    AncestorOfAncestor(cell, b.level, a.level);
  }

  /** A cell of the domain at some level. */
  predicate InDomain(t: Tree, cell: Loc)
  {
    && 0 <= t.rootLevel <= cell.level
    && 0 <= cell.x < Shl(t.nx, cell.level - t.rootLevel)
    && 0 <= cell.y < Shl(t.ny, cell.level - t.rootLevel)
    && 0 <= cell.z < Shl(t.nz, cell.level - t.rootLevel)
  }

  lemma {:induction false} ShrInRange(y: int, d: nat, n: int)
    ensures 0 <= y < Shl(n, d) <==> 0 <= Shr(y, d) < n
    decreases d
  {
    if d > 0 {
      ShrInRange(y / 2, d - 1, n);
    }
  }

  lemma {:induction false} ShlZero(d: nat)
    ensures Shl(0, d) == 0
  {
    if d > 0 {
      ShlZero(d - 1);
    }
  }

  /** A cell is in the domain exactly when its ancestor at the root level is in the root grid. */
  lemma DomainIsRootGrid(t: Tree, cell: Loc)
    requires 0 <= t.rootLevel <= cell.level
    ensures InDomain(t, cell) <==> InRootGrid(t, Ancestor(cell, t.rootLevel))
  {
    AncestorIsShift(cell, t.rootLevel);
    ShiftedInGrid(t, cell, cell.level - t.rootLevel);
  }

  lemma ShiftedInGrid(t: Tree, cell: Loc, d: nat)
    requires 0 <= t.rootLevel == cell.level - d
    ensures InDomain(t, cell) <==> InRootGrid(t, Loc(t.rootLevel, Shr(cell.x, d), Shr(cell.y, d), Shr(cell.z, d)))
  {
    ShrInRange(cell.x, d, t.nx);
    ShrInRange(cell.y, d, t.ny);
    ShrInRange(cell.z, d, t.nz);
  }

  /** Every active block lies in the domain. */
  lemma ActiveInDomain(t: Tree, n: Loc)
    requires IsForest(t) && n in t.active
    ensures InDomain(t, n)
  {
    AncestorsActive(t, n, t.rootLevel);
    DomainIsRootGrid(t, n);
  }

  /**
   Main result: the leaves tile the domain. A cell at least as fine as every block has a leaf above it exactly when it
   is in the domain, and never two.
   */
  lemma LeavesTile(t: Tree, cell: Loc)
    requires IsForest(t) && t.deepest <= cell.level
    ensures InDomain(t, cell) <==> exists leaf :: leaf in t.leaves && IsAbove(leaf, cell)
    ensures forall a, b :: a in t.leaves && b in t.leaves && IsAbove(a, cell) && IsAbove(b, cell) ==> a == b
  {
    DomainIsRootGrid(t, cell);
    if InDomain(t, cell) {
      var leaf := LeafAbove(t, cell, t.rootLevel);
    }
    forall leaf | leaf in t.leaves && IsAbove(leaf, cell) ensures InDomain(t, cell) {
      AncestorsActive(t, leaf, t.rootLevel);
      AncestorOfAncestor(cell, leaf.level, t.rootLevel);
    }
    forall a, b | a in t.leaves && b in t.leaves && IsAbove(a, cell) && IsAbove(b, cell) ensures a == b {
      if a.level <= b.level {
        AboveTogether(a, b, cell);
        LeavesApart(t, a, b);
      } else {
        AboveTogether(b, a, cell);
        LeavesApart(t, b, a);
      }
    }
  }
}
