/**
 Depth-first walks over the blocks of a mesh and the lookup of the leaves that cover a location
 (tools/commbench/src/amr/mesh.cc).
 */
module Covering {
  import opened Sums
  import opened Octree

  /** The leaves at or below n, children in order. In a forest the walk never meets the level bound. */
  function LeavesUnder(t: Tree, n: Loc): seq<Loc>
    decreases t.deepest - n.level, 9
  {
    if n in t.leaves then [n] else if n.level >= t.deepest then [] else LeavesUnderChildren(t, n, 8)
  }

  function LeavesUnderChildren(t: Tree, n: Loc, k: nat): seq<Loc>
    requires k <= 8 && n.level < t.deepest
    decreases t.deepest - n.level, k
  {
    if k == 0 then [] else LeavesUnderChildren(t, n, k - 1) + LeavesUnder(t, Child(n, k - 1))
  }

  /** Which child of n a location below n belongs to. */
  lemma ChildAbove(n: Loc, i: int, d: Loc)
    requires n.level >= 0 && 0 <= i < 8
    ensures IsAbove(Child(n, i), d)
            <==> d.level > n.level && IsAbove(n, d) && ChildIndex(Ancestor(d, n.level + 1)) == i
  {
    ParentOfChild(n, i);
    if d.level > n.level {
      AncestorStep(d, n.level);
    }
  }

  lemma {:induction false} UnderExact(t: Tree, n: Loc, d: Loc)
    requires IsForest(t) && n in t.active
    ensures d in LeavesUnder(t, n) <==> d in t.leaves && IsAbove(n, d)
    decreases t.deepest - n.level, 9
  {
    if n in t.leaves {
      if d in t.leaves && IsAbove(n, d) {
        LeavesApart(t, n, d);
      }
    } else {
      assert HasChildren(t, n);
      UnderChildrenExact(t, n, 8, d);
    }
  }

  lemma {:induction false} UnderChildrenExact(t: Tree, n: Loc, k: nat, d: Loc)
    requires IsForest(t) && n in t.active && n !in t.leaves && k <= 8 && n.level < t.deepest
    ensures d in LeavesUnderChildren(t, n, k)
            <==> d in t.leaves && d.level > n.level && IsAbove(n, d) && ChildIndex(Ancestor(d, n.level + 1)) < k
    decreases t.deepest - n.level, k
  {
    if k > 0 {
      assert HasChildren(t, n);
      UnderChildrenExact(t, n, k - 1, d);
      UnderExact(t, Child(n, k - 1), d);
      ChildAbove(n, k - 1, d);
    }
  }

  // ----- Morton order -----

  /** Below their common ancestor at level l, a lies in an earlier child than b. */
  predicate SplitAt(a: Loc, b: Loc, l: int)
  {
    && 0 <= l < a.level && l < b.level && Ancestor(a, l) == Ancestor(b, l)
    && ChildIndex(Ancestor(a, l + 1)) < ChildIndex(Ancestor(b, l + 1))
  }

  /** a comes before b in Morton (Z-curve) order. */
  ghost predicate MortonBefore(a: Loc, b: Loc)
  {
    exists l :: SplitAt(a, b, l)
  }

  ghost predicate InMortonOrder(s: seq<Loc>)
  {
    forall i, j :: 0 <= i < j < |s| ==> MortonBefore(s[i], s[j])
  }

  /** Morton order is strict, so a list in Morton order has no repetitions. */
  lemma MortonIsStrict(a: Loc, b: Loc)
    requires MortonBefore(a, b)
    ensures a != b && !MortonBefore(b, a)
  {
    var l :| SplitAt(a, b, l);
    forall k ensures !SplitAt(b, a, k) {
      if SplitAt(b, a, k) {
        if k < l {
          AncestorOfAncestor(a, l, k + 1);
          AncestorOfAncestor(b, l, k + 1);
        } else if l < k {
          AncestorOfAncestor(a, k, l + 1);
          AncestorOfAncestor(b, k, l + 1);
        }
      }
    }
  }

  lemma MortonAppend(a: seq<Loc>, b: seq<Loc>)
    requires InMortonOrder(a) && InMortonOrder(b)
    requires forall x, y :: x in a && y in b ==> MortonBefore(x, y)
    ensures InMortonOrder(a + b)
  {
  }

  lemma {:induction false} UnderInOrder(t: Tree, n: Loc)
    requires IsForest(t) && n in t.active
    ensures InMortonOrder(LeavesUnder(t, n))
    decreases t.deepest - n.level, 9
  {
    if n !in t.leaves {
      assert HasChildren(t, n);
      UnderChildrenInOrder(t, n, 8);
    }
  }

  lemma {:induction false} UnderChildrenInOrder(t: Tree, n: Loc, k: nat)
    requires IsForest(t) && n in t.active && n !in t.leaves && k <= 8 && n.level < t.deepest
    ensures InMortonOrder(LeavesUnderChildren(t, n, k))
    decreases t.deepest - n.level, k
  {
    if k > 0 {
      assert HasChildren(t, n);
      UnderChildrenInOrder(t, n, k - 1);
      UnderInOrder(t, Child(n, k - 1));
      var a, b := LeavesUnderChildren(t, n, k - 1), LeavesUnder(t, Child(n, k - 1));
      forall x, y | x in a && y in b ensures MortonBefore(x, y) {
        UnderChildrenExact(t, n, k - 1, x);
        UnderExact(t, Child(n, k - 1), y);
        ChildAbove(n, k - 1, y);
        assert SplitAt(x, y, n.level);
      }
      MortonAppend(a, b);
    }
  }

  // ----- numbering -----

  /** The leaves below a list of roots, one root after the other. */
  function LeafOrder(t: Tree, roots: seq<Loc>): seq<Loc>
  {
    if |roots| == 0 then [] else LeafOrder(t, roots[..|roots| - 1]) + LeavesUnder(t, roots[|roots| - 1])
  }

  /** roots lists the active blocks of the root level once each, in any order. */
  ghost predicate ListsRoots(t: Tree, roots: seq<Loc>)
  {
    && Distinct(roots)
    && (forall n: Loc :: n in roots <==> n in t.active && n.level == t.rootLevel)
  }

  lemma {:induction false} OrderExact(t: Tree, roots: seq<Loc>, d: Loc)
    requires IsForest(t) && forall i :: 0 <= i < |roots| ==> roots[i] in t.active && roots[i].level == t.rootLevel
    ensures d in LeafOrder(t, roots) <==> d in t.leaves && d.level >= t.rootLevel && Ancestor(d, t.rootLevel) in roots
  {
    if |roots| > 0 {
      var k := |roots| - 1;
      OrderExact(t, roots[..k], d);
      UnderExact(t, roots[k], d);
      assert roots == roots[..k] + [roots[k]];
    }
  }

  lemma DistinctAppend(a: seq<Loc>, b: seq<Loc>)
    requires Distinct(a) && Distinct(b) && forall x :: x in a ==> x !in b
    ensures Distinct(a + b)
  {
    forall i, j | 0 <= i < j < |a + b| ensures (a + b)[i] != (a + b)[j] {
      if i < |a| <= j {
        assert a[i] in a && b[j - |a|] in b;
      }
    }
  }

  lemma {:induction false} OrderDistinct(t: Tree, roots: seq<Loc>)
    requires IsForest(t) && Distinct(roots)
    requires forall i :: 0 <= i < |roots| ==> roots[i] in t.active && roots[i].level == t.rootLevel
    ensures Distinct(LeafOrder(t, roots))
  {
    if |roots| > 0 {
      var k := |roots| - 1;
      var a, b := LeafOrder(t, roots[..k]), LeavesUnder(t, roots[k]);
      OrderDistinct(t, roots[..k]);
      UnderInOrder(t, roots[k]);
      forall i, j | 0 <= i < j < |b| ensures b[i] != b[j] {
        MortonIsStrict(b[i], b[j]);
      }
      forall x | x in a ensures x !in b {
        OrderExact(t, roots[..k], x);
        UnderExact(t, roots[k], x);
      }
      DistinctAppend(a, b);
    }
  }

  /**
   Main result: whatever the order of the roots, the numbering lists every leaf exactly once, and the leaves below one
   root are numbered in Morton order.
   */
  lemma NumberingIsBijection(t: Tree, roots: seq<Loc>)
    requires IsForest(t) && ListsRoots(t, roots)
    ensures Distinct(LeafOrder(t, roots))
    ensures forall d :: d in LeafOrder(t, roots) <==> d in t.leaves
    ensures forall r :: r in roots ==> InMortonOrder(LeavesUnder(t, r))
  {
    OrderDistinct(t, roots);
    forall d ensures d in LeafOrder(t, roots) <==> d in t.leaves {
      OrderExact(t, roots, d);
      if d in t.leaves {
        AncestorsActive(t, d, t.rootLevel);
      }
    }
    forall r | r in roots ensures InMortonOrder(LeavesUnder(t, r)) {
      UnderInOrder(t, r);
    }
  }

  // ----- covering leaves -----

  /** The climb from a location to the first active ancestor, no further than the root level. */
  function FirstActive(t: Tree, n: Loc): Loc
    requires 0 <= t.rootLevel <= n.level
    decreases n.level
  {
    if n.level > t.rootLevel && n !in t.active then FirstActive(t, Parent(n)) else n
  }

  function CoveringLeaves(t: Tree, n: Loc): seq<Loc>
    requires 0 <= t.rootLevel <= n.level
  {
    var a := FirstActive(t, n);
    if a in t.active then LeavesUnder(t, a) else []
  }

  lemma {:induction false} ClimbStops(t: Tree, n: Loc)
    requires 0 <= t.rootLevel <= n.level
    ensures var a := FirstActive(t, n);
            && t.rootLevel <= a.level <= n.level && a == Ancestor(n, a.level)
            && (a.level > t.rootLevel ==> a in t.active)
            && forall l :: a.level < l <= n.level ==> Ancestor(n, l) !in t.active
    decreases n.level
  {
    if n.level > t.rootLevel && n !in t.active {
      ClimbStops(t, Parent(n));
    }
  }

  /**
   Main result: the lookup finds exactly the leaves that lie above the location or below it, at any difference in
   level, and none for locations outside the domain (negative coordinates included).
   */
  lemma CoverExact(t: Tree, n: Loc, d: Loc)
    requires IsForest(t) && t.rootLevel <= n.level
    ensures d in CoveringLeaves(t, n) <==> d in t.leaves && (IsAbove(d, n) || IsAbove(n, d))
  {
    ClimbStops(t, n);
    var a := FirstActive(t, n);
    if a in t.active {
      UnderExact(t, a, d);
      if a != n {
        ClimbEndsInLeaf(t, n);
        if d in t.leaves && IsAbove(a, d) { LeavesApart(t, a, d); }
      }
    }
    if d in t.leaves && IsAbove(d, n) { FoundAbove(t, n, d); }
    if d in t.leaves && IsAbove(n, d) { FoundBelow(t, n, d); }
  }

  lemma ChildIsActive(t: Tree, n: Loc, i: int)
    requires IsForest(t) && n in t.active && n !in t.leaves && 0 <= i < 8
    ensures Child(n, i) in t.active
  {
    assert HasChildren(t, n);
  }

  lemma ClimbEndsInLeaf(t: Tree, n: Loc)
    requires IsForest(t) && t.rootLevel <= n.level && FirstActive(t, n) != n && FirstActive(t, n) in t.active
    ensures FirstActive(t, n) in t.leaves && IsAbove(FirstActive(t, n), n)
  {
    ClimbStops(t, n);
    var a := FirstActive(t, n);
    AncestorStep(n, a.level);
    var i := ChildIndex(Ancestor(n, a.level + 1));
    if a !in t.leaves {
      ChildIsActive(t, a, i);
    }
  }

  lemma FoundAbove(t: Tree, n: Loc, d: Loc)
    requires IsForest(t) && t.rootLevel <= n.level && d in t.leaves && IsAbove(d, n)
    ensures FirstActive(t, n) == d
  {
    ClimbStops(t, n);
    var a := FirstActive(t, n);
    if a.level > d.level {
      AncestorsActive(t, a, d.level);
      AncestorOfAncestor(n, a.level, d.level);
      assert false;
    }
  }

  lemma FoundBelow(t: Tree, n: Loc, d: Loc)
    requires IsForest(t) && t.rootLevel <= n.level && d in t.leaves && IsAbove(n, d)
    ensures FirstActive(t, n) == n && n in t.active
  {
    AncestorsActive(t, d, n.level);
  }
}
