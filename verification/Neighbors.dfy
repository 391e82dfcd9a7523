/**
 How two blocks touch (tools/commbench/src/amr/mesh.cc): the test on scaled intervals, what it means for the cells of
 the two blocks, and the offsets at which a neighbour is looked up.
 */
module Neighbors {
  import opened Octree

  datatype NeighborType = Face | Edge | Vertex | NotNeighbor

  /** Two intervals on one axis. */
  datatype Side = Side(overlap: bool, touch: bool)

  function AxisInfo(min1: int, max1: int, min2: int, max2: int): Side
  {
    Side(min1 < max2 && min2 < max1, max1 == min2 || max2 == min1)
  }

  /** Counts the axes that only touch; every axis must overlap or touch. */
  function Kind(x: Side, y: Side, z: Side): NeighborType
  {
    if !((x.overlap || x.touch) && (y.overlap || y.touch) && (z.overlap || z.touch)) then NotNeighbor
    else
      var touches := (if x.touch then 1 else 0) + (if y.touch then 1 else 0) + (if z.touch then 1 else 0);
      if touches == 1 then Face else if touches == 2 then Edge else if touches == 3 then Vertex else NotNeighbor
  }

  /** The block at x, d levels above the common level, as an interval [Low, High). */
  function Low(x: int, d: nat): int
  {
    Shl(x, d)
  }

  function High(x: int, d: nat): int
  {
    Shl(x, d) + Shl(1, d)
  }

  lemma HighIsNextLow(x: int, d: nat)
    ensures High(x, d) == Shl(x + 1, d)
    ensures Low(x, d) < High(x, d)
  {
    ShlAdd(x, 1, d);
    ShlMonotone(x, x + 1, d);
  }

  function ExactAxis(x1: int, d1: nat, x2: int, d2: nat): Side
  {
    AxisInfo(Low(x1, d1), High(x1, d1), Low(x2, d2), High(x2, d2))
  }

  /** Conversion of a 64-bit coordinate to the 32-bit parameters of axis_info. */
  function Narrow(x: int): int
  {
    (x + 0x8000_0000) % 0x1_0000_0000 - 0x8000_0000
  }

  function NarrowedAxis(x1: int, d1: nat, x2: int, d2: nat): Side
  {
    AxisInfo(Narrow(Low(x1, d1)), Narrow(High(x1, d1)), Narrow(Low(x2, d2)), Narrow(High(x2, d2)))
  }

  function Max(a: int, b: int): int
  {
    if a >= b then a else b
  }

  /** Mesh::AreNeighborsByType. */
  function AreNeighborsByType(l1: Loc, l2: Loc): NeighborType
  {
    var d1, d2 := Max(l1.level, l2.level) - l1.level, Max(l1.level, l2.level) - l2.level;
    Kind(NarrowedAxis(l1.x, d1, l2.x, d2), NarrowedAxis(l1.y, d1, l2.y, d2), NarrowedAxis(l1.z, d1, l2.z, d2))
  }

  /** The relation the test is meant to compute: the same on unbounded coordinates. */
  function Relation(l1: Loc, l2: Loc): NeighborType
  {
    var d1, d2 := Max(l1.level, l2.level) - l1.level, Max(l1.level, l2.level) - l2.level;
    Kind(ExactAxis(l1.x, d1, l2.x, d2), ExactAxis(l1.y, d1, l2.y, d2), ExactAxis(l1.z, d1, l2.z, d2))
  }

  lemma AxisIsSymmetric(x1: int, d1: nat, x2: int, d2: nat)
    ensures ExactAxis(x1, d1, x2, d2) == ExactAxis(x2, d2, x1, d1)
    ensures NarrowedAxis(x1, d1, x2, d2) == NarrowedAxis(x2, d2, x1, d1)
  {
  }

  lemma RelationIsSymmetric(l1: Loc, l2: Loc)
    ensures Relation(l1, l2) == Relation(l2, l1)
    ensures AreNeighborsByType(l1, l2) == AreNeighborsByType(l2, l1)
  {
    var d1, d2 := Max(l1.level, l2.level) - l1.level, Max(l1.level, l2.level) - l2.level;
    AxisIsSymmetric(l1.x, d1, l2.x, d2);
    AxisIsSymmetric(l1.y, d1, l2.y, d2);
    AxisIsSymmetric(l1.z, d1, l2.z, d2);
  }

  // ----- the relation in terms of cells -----

  /** The distance of two cells along an axis is 0 or 1. */
  predicate IsNear(a: int, b: int)
  {
    -1 <= a - b <= 1
  }

  function Differs(a: int, b: int): int
  {
    if a == b then 0 else 1
  }

  /** A cell of l1 and a cell of l2, at a common level, that differ by one on exactly k axes and agree on the others. */
  ghost predicate CellsMeet(l1: Loc, l2: Loc, level: int, k: int)
    requires l1.level <= level && l2.level <= level
  {
    exists c1: Loc, c2: Loc :: CellPair(l1, l2, level, k, c1, c2)
  }

  predicate CellPair(l1: Loc, l2: Loc, level: int, k: int, c1: Loc, c2: Loc)
    requires l1.level <= level && l2.level <= level
  {
    && c1.level == c2.level == level && IsAbove(l1, c1) && IsAbove(l2, c2)
    && IsNear(c1.x, c2.x) && IsNear(c1.y, c2.y) && IsNear(c1.z, c2.z)
    && Differs(c1.x, c2.x) + Differs(c1.y, c2.y) + Differs(c1.z, c2.z) == k
  }

  /** What an axis says about the cells of two intervals. */
  lemma AxisPair(x1: int, d1: nat, x2: int, d2: nat) returns (a: int, b: int)
    ensures ExactAxis(x1, d1, x2, d2).overlap || ExactAxis(x1, d1, x2, d2).touch
            ==> Low(x1, d1) <= a < High(x1, d1) && Low(x2, d2) <= b < High(x2, d2) && IsNear(a, b)
    ensures ExactAxis(x1, d1, x2, d2).overlap ==> a == b
    ensures !ExactAxis(x1, d1, x2, d2).overlap || !ExactAxis(x1, d1, x2, d2).touch
  {
    HighIsNextLow(x1, d1);
    HighIsNextLow(x2, d2);
    if ExactAxis(x1, d1, x2, d2).overlap {
      a := Max(Low(x1, d1), Low(x2, d2));
      b := a;
    } else if High(x1, d1) == Low(x2, d2) {
      a, b := High(x1, d1) - 1, Low(x2, d2);
    } else {
      a, b := Low(x1, d1), High(x2, d2) - 1;
    }
  }

  lemma AxisOfPair(x1: int, d1: nat, x2: int, d2: nat, a: int, b: int)
    requires Low(x1, d1) <= a < High(x1, d1) && Low(x2, d2) <= b < High(x2, d2) && IsNear(a, b)
    ensures ExactAxis(x1, d1, x2, d2).overlap || (ExactAxis(x1, d1, x2, d2).touch && a != b)
  {
  }

  /** Scaling both intervals further does not change how they meet. */
  lemma AxisScales(x1: int, d1: nat, x2: int, d2: nat, e: nat)
    ensures ExactAxis(x1, d1 + e, x2, d2 + e) == ExactAxis(x1, d1, x2, d2)
  {
    HighIsNextLow(x1, d1);
    HighIsNextLow(x2, d2);
    HighIsNextLow(x1, d1 + e);
    HighIsNextLow(x2, d2 + e);
    ShlTwice(x1, d1, e);
    ShlTwice(x2, d2, e);
    ShlTwice(x1 + 1, d1, e);
    ShlTwice(x2 + 1, d2, e);
    ShlMonotone(Low(x1, d1), High(x2, d2), e);
    ShlMonotone(Low(x2, d2), High(x1, d1), e);
  }

  lemma RelationAtLevel(l1: Loc, l2: Loc, level: int)
    requires l1.level <= level && l2.level <= level
    ensures var d1, d2 := level - l1.level, level - l2.level;
            Relation(l1, l2)
            == Kind(ExactAxis(l1.x, d1, l2.x, d2), ExactAxis(l1.y, d1, l2.y, d2), ExactAxis(l1.z, d1, l2.z, d2))
  {
    var top := Max(l1.level, l2.level);
    var d1, d2, e := top - l1.level, top - l2.level, level - top;
    AxisScales(l1.x, d1, l2.x, d2, e);
    AxisScales(l1.y, d1, l2.y, d2, e);
    AxisScales(l1.z, d1, l2.z, d2, e);
  }

  /** A cell belongs to a block when each coordinate lies in the block's interval. */
  lemma CellInBlock(n: Loc, c: Loc)
    requires 0 <= n.level <= c.level
    ensures var d := c.level - n.level;
            IsAbove(n, c) <==> Low(n.x, d) <= c.x < High(n.x, d) && Low(n.y, d) <= c.y < High(n.y, d)
                               && Low(n.z, d) <= c.z < High(n.z, d)
  {
    var d := c.level - n.level;
    AncestorIsShift(c, n.level);
    ShrIsRange(c.x, d, n.x);
    ShrIsRange(c.y, d, n.y);
    ShrIsRange(c.z, d, n.z);
    HighIsNextLow(n.x, d);
    HighIsNextLow(n.y, d);
    HighIsNextLow(n.z, d);
  }

  function Touches(x: Side, y: Side, z: Side): int
  {
    (if x.touch then 1 else 0) + (if y.touch then 1 else 0) + (if z.touch then 1 else 0)
  }

  /** Blocks that overlap or touch on every axis have cells that differ on just the touching axes. */
  lemma NearestCells(l1: Loc, l2: Loc, level: int, x: Side, y: Side, z: Side)
    requires 0 <= l1.level <= level && 0 <= l2.level <= level
    requires var d1, d2 := level - l1.level, level - l2.level;
             && x == ExactAxis(l1.x, d1, l2.x, d2) && y == ExactAxis(l1.y, d1, l2.y, d2)
             && z == ExactAxis(l1.z, d1, l2.z, d2)
    requires (x.overlap || x.touch) && (y.overlap || y.touch) && (z.overlap || z.touch)
    ensures CellsMeet(l1, l2, level, Touches(x, y, z))
  {
    var d1, d2 := level - l1.level, level - l2.level;
    var x1, x2 := AxisPair(l1.x, d1, l2.x, d2);
    var y1, y2 := AxisPair(l1.y, d1, l2.y, d2);
    var z1, z2 := AxisPair(l1.z, d1, l2.z, d2);
    var c1, c2 := Loc(level, x1, y1, z1), Loc(level, x2, y2, z2);
    CellInBlock(l1, c1);
    CellInBlock(l2, c2);
    TouchDiffers(l1.x, d1, l2.x, d2, x1, x2);
    TouchDiffers(l1.y, d1, l2.y, d2, y1, y2);
    TouchDiffers(l1.z, d1, l2.z, d2, z1, z2);
    assert CellPair(l1, l2, level, Touches(x, y, z), c1, c2);
  }

  lemma TouchDiffers(x1: int, d1: nat, x2: int, d2: nat, a: int, b: int)
    requires Low(x1, d1) <= a < High(x1, d1) && Low(x2, d2) <= b < High(x2, d2)
    ensures ExactAxis(x1, d1, x2, d2).touch ==> a != b && !ExactAxis(x1, d1, x2, d2).overlap
  {
  }

  /** Cells that are near differ at least on the touching axes. */
  lemma CellsDiffer(l1: Loc, l2: Loc, level: int, k: int, c1: Loc, c2: Loc)
    requires 0 <= l1.level <= level && 0 <= l2.level <= level && CellPair(l1, l2, level, k, c1, c2)
    ensures var d1, d2 := level - l1.level, level - l2.level;
            var x, y, z := ExactAxis(l1.x, d1, l2.x, d2), ExactAxis(l1.y, d1, l2.y, d2), ExactAxis(l1.z, d1, l2.z, d2);
            && (x.overlap || x.touch) && (y.overlap || y.touch) && (z.overlap || z.touch) && Touches(x, y, z) <= k
  {
    var d1, d2 := level - l1.level, level - l2.level;
    CellInBlock(l1, c1);
    CellInBlock(l2, c2);
    AxisOfPair(l1.x, d1, l2.x, d2, c1.x, c2.x);
    AxisOfPair(l1.y, d1, l2.y, d2, c1.y, c2.y);
    AxisOfPair(l1.z, d1, l2.z, d2, c1.z, c2.z);
    TouchDiffers(l1.x, d1, l2.x, d2, c1.x, c2.x);
    TouchDiffers(l1.y, d1, l2.y, d2, c1.y, c2.y);
    TouchDiffers(l1.z, d1, l2.z, d2, c1.z, c2.z);
  }

  /** The number of axes on which the closest cells of two touching blocks differ. */
  ghost predicate MeetAt(l1: Loc, l2: Loc, level: int, k: int)
    requires l1.level <= level && l2.level <= level
  {
    CellsMeet(l1, l2, level, k) && forall j :: j < k ==> !CellsMeet(l1, l2, level, j)
  }

  /**
   Main result: at any level at least as fine as both blocks, they are face, edge or vertex neighbours exactly when
   their closest cells differ by one on one, two or three axes.
   */
  lemma RelationByCells(l1: Loc, l2: Loc, level: int)
    requires 0 <= l1.level <= level && 0 <= l2.level <= level
    ensures Relation(l1, l2) == Face <==> MeetAt(l1, l2, level, 1)
    ensures Relation(l1, l2) == Edge <==> MeetAt(l1, l2, level, 2)
    ensures Relation(l1, l2) == Vertex <==> MeetAt(l1, l2, level, 3)
  {
    RelationAtLevel(l1, l2, level);
    var d1, d2 := level - l1.level, level - l2.level;
    var x, y, z := ExactAxis(l1.x, d1, l2.x, d2), ExactAxis(l1.y, d1, l2.y, d2), ExactAxis(l1.z, d1, l2.z, d2);
    forall k | CellsMeet(l1, l2, level, k)
      ensures (x.overlap || x.touch) && (y.overlap || y.touch) && (z.overlap || z.touch) && Touches(x, y, z) <= k
    {
      var c1, c2 :| CellPair(l1, l2, level, k, c1, c2);
      CellsDiffer(l1, l2, level, k, c1, c2);
    }
    if (x.overlap || x.touch) && (y.overlap || y.touch) && (z.overlap || z.touch) {
      NearestCells(l1, l2, level, x, y, z);
    }
  }

  // ----- 32-bit coordinates -----

  /** On coordinates that fit in 32 bits the narrowing changes nothing. */
  lemma NarrowIsExact(l1: Loc, l2: Loc, x: int)
    requires var L := Max(l1.level, l2.level);
             && 0 <= l1.x && 0 <= l1.y && 0 <= l1.z && 0 <= l2.x && 0 <= l2.y && 0 <= l2.z
             && FitsBelow(l1, L, x) && FitsBelow(l2, L, x)
    requires x < 0x8000_0000
    ensures AreNeighborsByType(l1, l2) == Relation(l1, l2)
  {
    var L := Max(l1.level, l2.level);
    AxisFits(l1.x, L - l1.level, l2.x, L - l2.level, x);
    AxisFits(l1.y, L - l1.level, l2.y, L - l2.level, x);
    AxisFits(l1.z, L - l1.level, l2.z, L - l2.level, x);
  }

  /** The far ends of the block, in units of level L, are at most x. */
  predicate FitsBelow(n: Loc, L: int, x: int)
    requires n.level <= L
  {
    High(n.x, L - n.level) <= x && High(n.y, L - n.level) <= x && High(n.z, L - n.level) <= x
  }

  lemma SmallIsKept(x: int)
    requires 0 <= x < 0x8000_0000
    ensures Narrow(x) == x
  {
  }

  lemma AxisFits(x1: int, d1: nat, x2: int, d2: nat, x: int)
    requires 0 <= x1 && 0 <= x2 && High(x1, d1) <= x && High(x2, d2) <= x && x < 0x8000_0000
    ensures NarrowedAxis(x1, d1, x2, d2) == ExactAxis(x1, d1, x2, d2)
  {
    LowNonnegative(x1, d1);
    LowNonnegative(x2, d2);
    SmallIsKept(Low(x1, d1));
    SmallIsKept(High(x1, d1));
    SmallIsKept(Low(x2, d2));
    SmallIsKept(High(x2, d2));
  }

  lemma {:induction false} LowNonnegative(x: int, d: nat)
    requires 0 <= x
    ensures 0 <= Low(x, d) <= High(x, d)
  {
    ShlZero(d);
    ShlMonotone(0, 1, d);
    if x > 0 {
      ShlMonotone(0, x, d);
    }
  }

  // ----- where neighbours are looked up -----

  datatype Vec = Vec(x: int, y: int, z: int)

  const FACE_OFFSETS: seq<Vec> :=
    [Vec(1, 0, 0), Vec(-1, 0, 0), Vec(0, 1, 0), Vec(0, -1, 0), Vec(0, 0, 1), Vec(0, 0, -1)]

  const EDGE_OFFSETS: seq<Vec> :=
    [Vec(1, 1, 0), Vec(1, -1, 0), Vec(-1, 1, 0), Vec(-1, -1, 0), Vec(1, 0, 1), Vec(1, 0, -1),
     Vec(-1, 0, 1), Vec(-1, 0, -1), Vec(0, 1, 1), Vec(0, 1, -1), Vec(0, -1, 1), Vec(0, -1, -1)]

  const VERTEX_OFFSETS: seq<Vec> :=
    [Vec(1, 1, 1), Vec(1, 1, -1), Vec(1, -1, 1), Vec(1, -1, -1),
     Vec(-1, 1, 1), Vec(-1, 1, -1), Vec(-1, -1, 1), Vec(-1, -1, -1)]

  function Offsets(kind: NeighborType): seq<Vec>
  {
    match kind
    case Face => FACE_OFFSETS
    case Edge => EDGE_OFFSETS
    case Vertex => VERTEX_OFFSETS
    case NotNeighbor => []
  }

  function Shifted(n: Loc, v: Vec): Loc
  {
    Loc(n.level, n.x + v.x, n.y + v.y, n.z + v.z)
  }

  /** The side on which the second interval lies. */
  function Toward(x1: int, d1: nat, x2: int, d2: nat): int
  {
    if ExactAxis(x1, d1, x2, d2).overlap then 0 else if High(x1, d1) == Low(x2, d2) then 1 else -1
  }

  function Direction(l1: Loc, l2: Loc): Vec
  {
    var d1, d2 := Max(l1.level, l2.level) - l1.level, Max(l1.level, l2.level) - l2.level;
    Vec(Toward(l1.x, d1, l2.x, d2), Toward(l1.y, d1, l2.y, d2), Toward(l1.z, d1, l2.z, d2))
  }

  lemma AxisExclusive(x1: int, d1: nat, x2: int, d2: nat)
    ensures !ExactAxis(x1, d1, x2, d2).overlap || !ExactAxis(x1, d1, x2, d2).touch
  {
    var a, b := AxisPair(x1, d1, x2, d2);
  }

  lemma DirectionIsOffset(l1: Loc, l2: Loc)
    requires Relation(l1, l2) != NotNeighbor
    ensures Direction(l1, l2) in Offsets(Relation(l1, l2))
  {
    var d1, d2 := Max(l1.level, l2.level) - l1.level, Max(l1.level, l2.level) - l2.level;
    AxisExclusive(l1.x, d1, l2.x, d2);
    AxisExclusive(l1.y, d1, l2.y, d2);
    AxisExclusive(l1.z, d1, l2.z, d2);
    OffsetListed(Direction(l1, l2));
  }

  function Nonzero(a: int): int
  {
    if a == 0 then 0 else 1
  }

  /** The three offset arrays hold all vectors of -1, 0 and 1 with one, two and three entries that are not 0. */
  lemma OffsetListed(v: Vec)
    requires -1 <= v.x <= 1 && -1 <= v.y <= 1 && -1 <= v.z <= 1
    ensures Nonzero(v.x) + Nonzero(v.y) + Nonzero(v.z) == 1 ==> v in FACE_OFFSETS
    ensures Nonzero(v.x) + Nonzero(v.y) + Nonzero(v.z) == 2 ==> v in EDGE_OFFSETS
    ensures Nonzero(v.x) + Nonzero(v.y) + Nonzero(v.z) == 3 ==> v in VERTEX_OFFSETS
  {
    FaceListed(v);
    EdgeListed(v);
    VertexListed(v);
  }

  lemma FaceListed(v: Vec)
    requires -1 <= v.x <= 1 && -1 <= v.y <= 1 && -1 <= v.z <= 1
    ensures Nonzero(v.x) + Nonzero(v.y) + Nonzero(v.z) == 1 ==> v in FACE_OFFSETS
  {
    var f := FACE_OFFSETS;
    assert f[0] in f && f[1] in f && f[2] in f && f[3] in f && f[4] in f && f[5] in f;
  }

  lemma EdgeListed(v: Vec)
    requires -1 <= v.x <= 1 && -1 <= v.y <= 1 && -1 <= v.z <= 1
    ensures Nonzero(v.x) + Nonzero(v.y) + Nonzero(v.z) == 2 ==> v in EDGE_OFFSETS
  {
    var e := EDGE_OFFSETS;
    if v.x != 0 && v.y != 0 && v.z == 0 {
      ListedAt(e, v, if v.x == 1 then (if v.y == 1 then 0 else 1) else (if v.y == 1 then 2 else 3));
    } else if v.x != 0 && v.y == 0 && v.z != 0 {
      ListedAt(e, v, if v.x == 1 then (if v.z == 1 then 4 else 5) else (if v.z == 1 then 6 else 7));
    } else if v.x == 0 && v.y != 0 && v.z != 0 {
      ListedAt(e, v, if v.y == 1 then (if v.z == 1 then 8 else 9) else (if v.z == 1 then 10 else 11));
    }
  }

  lemma ListedAt(list: seq<Vec>, v: Vec, i: nat)
    requires i < |list| && list[i] == v
    ensures v in list
  {
  }

  lemma VertexListed(v: Vec)
    requires -1 <= v.x <= 1 && -1 <= v.y <= 1 && -1 <= v.z <= 1
    ensures Nonzero(v.x) + Nonzero(v.y) + Nonzero(v.z) == 3 ==> v in VERTEX_OFFSETS
  {
    var e := VERTEX_OFFSETS;
    assert e[0] in e && e[1] in e && e[2] in e && e[3] in e && e[4] in e && e[5] in e && e[6] in e && e[7] in e;
  }

  /** Looking from block 1 in the direction of block 2, one finds block 2 above or below the location. */
  lemma AxisReaches(x1: int, l1: int, x2: int, l2: int)
    requires var d1, d2 := Max(l1, l2) - l1, Max(l1, l2) - l2;
             ExactAxis(x1, d1, x2, d2).overlap || ExactAxis(x1, d1, x2, d2).touch
    ensures var to := x1 + Toward(x1, Max(l1, l2) - l1, x2, Max(l1, l2) - l2);
            if l2 <= l1 then Shr(to, l1 - l2) == x2 else Shr(x2, l2 - l1) == to
  {
    var d1, d2 := Max(l1, l2) - l1, Max(l1, l2) - l2;
    var to := x1 + Toward(x1, d1, x2, d2);
    HighIsNextLow(x1, d1);
    HighIsNextLow(x2, d2);
    if l2 <= l1 {
      ShrIsRange(to, d2, x2);
    } else {
      ShrIsRange(x2, d1, to);
      HighIsNextLow(x1 + 1, d1);
      HighIsNextLow(x1 - 1, d1);
    }
  }

  lemma DirectionReaches(l1: Loc, l2: Loc)
    requires 0 <= l1.level && 0 <= l2.level && Relation(l1, l2) != NotNeighbor
    ensures var to := Shifted(l1, Direction(l1, l2)); IsAbove(l2, to) || IsAbove(to, l2)
  {
    var to := Shifted(l1, Direction(l1, l2));
    AxisReaches(l1.x, l1.level, l2.x, l2.level);
    AxisReaches(l1.y, l1.level, l2.y, l2.level);
    AxisReaches(l1.z, l1.level, l2.z, l2.level);
    if l2.level <= l1.level {
      AncestorIsShift(to, l2.level);
    } else {
      AncestorIsShift(l2, l1.level);
    }
  }
}
