/**
 * Integer axis-aligned boxes: the geometry shared by every packer.
 * A box is given by its minimum corner and its extents along x (width),
 * y (length, the depth axis) and z (height). A unit cell is named by its
 * minimum corner, so the cells of a box are the lattice points of the
 * half-open product of its three intervals.
 */
module Geometry {

  datatype Point = Point(x: int, y: int, z: int)

  /** The extents of a box; the source's `orientation` triple. */
  datatype Size = Size(dx: int, dy: int, dz: int)

  datatype Box = Box(pos: Point, size: Size)

  function Volume(s: Size): int {
    s.dx * s.dy * s.dz
  }

  predicate Positive(s: Size) {
    0 < s.dx && 0 < s.dy && 0 < s.dz
  }

  predicate NonNegative(s: Size) {
    0 <= s.dx && 0 <= s.dy && 0 <= s.dz
  }

  /** Separating-axis test: the interiors of `a` and `b` meet, i.e. they are
      not separated along any of the three axes. Boxes that share only a face
      do not overlap. */
  predicate Overlaps(a: Box, b: Box) {
    !(a.pos.x + a.size.dx <= b.pos.x || a.pos.x >= b.pos.x + b.size.dx ||
      a.pos.y + a.size.dy <= b.pos.y || a.pos.y >= b.pos.y + b.size.dy ||
      a.pos.z + a.size.dz <= b.pos.z || a.pos.z >= b.pos.z + b.size.dz)
  }

  /** The bounds test the packers perform: only the far faces are compared
      with the container, because candidate corners are never negative. */
  predicate FitsUnder(b: Box, width: int, length: int, height: int) {
    b.pos.x + b.size.dx <= width &&
    b.pos.y + b.size.dy <= length &&
    b.pos.z + b.size.dz <= height
  }

  /** The box lies inside the container [0,width) x [0,length) x [0,height). */
  predicate Inside(b: Box, width: int, length: int, height: int) {
    0 <= b.pos.x && 0 <= b.pos.y && 0 <= b.pos.z && FitsUnder(b, width, length, height)
  }

  predicate InBox(c: Point, b: Box) {
    b.pos.x <= c.x < b.pos.x + b.size.dx &&
    b.pos.y <= c.y < b.pos.y + b.size.dy &&
    b.pos.z <= c.z < b.pos.z + b.size.dz
  }

  /** The unit cells a box occupies, built one unit slice along x at a time
      (see `CellsMembership` for the characterisation by `InBox`). */
  function Cells(b: Box): set<Point>
    decreases if b.size.dx <= 0 then 0 else b.size.dx
  {
    if b.size.dx <= 0 then {}
    else Cells(Shrink(b)) + Sheet(b.pos.x + b.size.dx - 1, b.pos.y, b.size.dy, b.pos.z, b.size.dz)
  }

  /** The box without its last unit slice along x. */
  function Shrink(b: Box): Box {
    Box(b.pos, Size(b.size.dx - 1, b.size.dy, b.size.dz))
  }

  /** The cells of the one-cell-thick sheet at `x` spanning m rows from y0 and n layers from z0. */
  function Sheet(x: int, y0: int, m: int, z0: int, n: int): set<Point>
    decreases if m <= 0 then 0 else m
  {
    if m <= 0 then {} else Sheet(x, y0, m - 1, z0, n) + Column(x, y0 + m - 1, z0, n)
  }

  /** The cells of the column at (x, y) spanning n layers from z0. */
  function Column(x: int, y: int, z0: int, n: int): set<Point>
    decreases if n <= 0 then 0 else n
  {
    if n <= 0 then {} else Column(x, y, z0, n - 1) + {Point(x, y, z0 + n - 1)}
  }

  /** Integer container extents (the constructors truncate with `int(...)`). */
  datatype Container = Container(width: int, length: int, height: int)

  function ContainerVolume(c: Container): int {
    c.width * c.length * c.height
  }

  /** The candidate corners the packers scan: range(width) x range(length) x range(height). */
  predicate InScan(c: Container, p: Point) {
    0 <= p.x < c.width && 0 <= p.y < c.length && 0 <= p.z < c.height
  }

  function ContainerBox(width: int, length: int, height: int): Box {
    Box(Point(0, 0, 0), Size(width, length, height))
  }

  lemma OverlapsSymmetric(a: Box, b: Box)
    ensures Overlaps(a, b) <==> Overlaps(b, a)
  {
  }

  /** The separating-axis test agrees with the cell model: two boxes with
      positive extents overlap exactly when they share a unit cell. This is
      what lets the placed-list packers and the occupancy-grid packers be
      compared. */
  lemma OverlapsIffSharedCell(a: Box, b: Box)
    requires Positive(a.size) && Positive(b.size)
    ensures Overlaps(a, b) <==> Cells(a) * Cells(b) != {}
  {
    CellsMembership(a);
    CellsMembership(b);
    if Overlaps(a, b) {
      var c := Point(Max(a.pos.x, b.pos.x), Max(a.pos.y, b.pos.y), Max(a.pos.z, b.pos.z));
      assert InBox(c, a) && InBox(c, b);
      assert c in Cells(a) * Cells(b);
    }
    if Cells(a) * Cells(b) != {} {
      var c :| c in Cells(a) * Cells(b);
      assert InBox(c, a) && InBox(c, b);
    }
  }

  function Max(a: int, b: int): int {
    if a < b then b else a
  }

  lemma {:induction false} ColumnMembership(x: int, y: int, z0: int, n: int)
    ensures forall c :: c in Column(x, y, z0, n) <==> c.x == x && c.y == y && z0 <= c.z < z0 + n
    decreases if n <= 0 then 0 else n
  {
    if n > 0 { ColumnMembership(x, y, z0, n - 1); }
  }
  lemma {:induction false} ColumnCardinality(x: int, y: int, z0: int, n: nat)
    ensures |Column(x, y, z0, n)| == n
  {
    if n > 0 {
      ColumnCardinality(x, y, z0, n - 1);
      ColumnMembership(x, y, z0, n - 1);
    }
  }
  lemma {:induction false} SheetMembership(x: int, y0: int, m: int, z0: int, n: int)
    ensures forall c :: c in Sheet(x, y0, m, z0, n) <==> c.x == x && y0 <= c.y < y0 + m && z0 <= c.z < z0 + n
    decreases if m <= 0 then 0 else m
  {
    if m > 0 {
      SheetMembership(x, y0, m - 1, z0, n);
      ColumnMembership(x, y0 + m - 1, z0, n);
    }
  }
  lemma SheetSplitDisjoint(x: int, y0: int, m: int, z0: int, n: int)
    requires m > 0
    ensures Sheet(x, y0, m - 1, z0, n) !! Column(x, y0 + m - 1, z0, n)
  {
    SheetMembership(x, y0, m - 1, z0, n);
    ColumnMembership(x, y0 + m - 1, z0, n);
  }
  lemma {:induction false} SheetCardinality(x: int, y0: int, m: nat, z0: int, n: nat)
    ensures |Sheet(x, y0, m, z0, n)| == m * n
  {
    if m > 0 {
      SheetCardinality(x, y0, m - 1, z0, n);
      ColumnCardinality(x, y0 + m - 1, z0, n);
      SheetSplitDisjoint(x, y0, m, z0, n);
      MulStep2(m, n);
    }
  }
  lemma MulStep2(a: int, b: int)
    ensures (a - 1) * b + b == a * b
  {
  }
  /** A cell belongs to `Cells(b)` exactly when it lies in the box. */
  lemma {:induction false} CellsMembership(b: Box)
    ensures forall c :: c in Cells(b) <==> InBox(c, b)
    decreases if b.size.dx <= 0 then 0 else b.size.dx
  {
    if b.size.dx > 0 {
      CellsMembership(Shrink(b));
      SheetMembership(b.pos.x + b.size.dx - 1, b.pos.y, b.size.dy, b.pos.z, b.size.dz);
    }
  }
  lemma CellsSplitDisjoint(b: Box)
    requires b.size.dx > 0
    ensures Cells(Shrink(b)) !! Sheet(b.pos.x + b.size.dx - 1, b.pos.y, b.size.dy, b.pos.z, b.size.dz)
  {
    CellsMembership(Shrink(b));
    SheetMembership(b.pos.x + b.size.dx - 1, b.pos.y, b.size.dy, b.pos.z, b.size.dz);
  }
  lemma MulStep3(s: Size)
    ensures Volume(Size(s.dx - 1, s.dy, s.dz)) + s.dy * s.dz == Volume(s)
  {
    assert (s.dx - 1) * s.dy * s.dz == (s.dx - 1) * (s.dy * s.dz);
    assert s.dx * s.dy * s.dz == s.dx * (s.dy * s.dz);
  }
  /** The number of cells of a box is its volume. */
  lemma {:induction false} CellsCardinality(b: Box)
    requires NonNegative(b.size)
    ensures |Cells(b)| == Volume(b.size)
    decreases b.size.dx
  {
    if b.size.dx > 0 {
      CellsCardinality(Shrink(b));
      SheetCardinality(b.pos.x + b.size.dx - 1, b.pos.y, b.size.dy, b.pos.z, b.size.dz);
      CellsSplitDisjoint(b);
      MulStep3(b.size);
    }
  }

  /** All cells covered by a sequence of boxes. */
  function UnionCells(bs: seq<Box>): set<Point>
  {
    if |bs| == 0 then {} else UnionCells(bs[..|bs| - 1]) + Cells(bs[|bs| - 1])
  }

  /** The summed volume of a sequence of boxes. */
  function SumVolumes(bs: seq<Box>): int
  {
    if |bs| == 0 then 0 else SumVolumes(bs[..|bs| - 1]) + Volume(bs[|bs| - 1].size)
  }

  predicate PairwiseDisjoint(bs: seq<Box>) {
    forall i, j :: 0 <= i < j < |bs| ==> !Overlaps(bs[i], bs[j])
  }

  predicate AllPositive(bs: seq<Box>) {
    forall i :: 0 <= i < |bs| ==> Positive(bs[i].size)
  }

  predicate AllInside(bs: seq<Box>, width: int, length: int, height: int) {
    forall i :: 0 <= i < |bs| ==> Inside(bs[i], width, length, height)
  }

  lemma {:induction false} UnionCellsMembership(bs: seq<Box>, c: Point)
    ensures c in UnionCells(bs) <==> exists i :: 0 <= i < |bs| && InBox(c, bs[i])
  {
    if |bs| > 0 {
      var pre := bs[..|bs| - 1];
      UnionCellsMembership(pre, c);
      CellsMembership(bs[|bs| - 1]);
      if c in UnionCells(pre) {
        var i :| 0 <= i < |pre| && InBox(c, pre[i]);
        assert InBox(c, bs[i]);
      }
      if exists i :: 0 <= i < |bs| && InBox(c, bs[i]) {
        var i :| 0 <= i < |bs| && InBox(c, bs[i]);
        if i < |pre| {
          assert InBox(c, pre[i]);
        }
      }
    }
  }

  /** Pairwise non-overlapping boxes cover exactly as many cells as their
      summed volume: no cell is counted twice. */
  lemma {:induction false} DisjointVolumeIsCellCount(bs: seq<Box>)
    requires AllPositive(bs) && PairwiseDisjoint(bs)
    ensures |UnionCells(bs)| == SumVolumes(bs)
  {
    if |bs| > 0 {
      var pre := bs[..|bs| - 1];
      var last := bs[|bs| - 1];
      assert AllPositive(pre) && PairwiseDisjoint(pre);
      DisjointVolumeIsCellCount(pre);
      forall c | c in Cells(last)
        ensures c !in UnionCells(pre)
      {
        UnionCellsMembership(pre, c);
        forall i | 0 <= i < |pre|
          ensures !InBox(c, pre[i])
        {
          CellsMembership(pre[i]);
          CellsMembership(last);
          assert !Overlaps(bs[i], bs[|bs| - 1]);
          OverlapsIffSharedCell(pre[i], last);
        }
      }
      assert UnionCells(pre) !! Cells(last);
      CellsCardinality(last);
    }
  }

  /** Boxes inside the container cover only container cells. */
  lemma {:induction false} UnionInsideContainer(bs: seq<Box>, width: int, length: int, height: int)
    requires AllInside(bs, width, length, height)
    ensures UnionCells(bs) <= Cells(ContainerBox(width, length, height))
  {
    if |bs| > 0 {
      var pre := bs[..|bs| - 1];
      assert AllInside(pre, width, length, height);
      UnionInsideContainer(pre, width, length, height);
      CellsMembership(bs[|bs| - 1]);
      CellsMembership(ContainerBox(width, length, height));
    }
  }

  /** The volume bound behind utilisation <= 1: pairwise non-overlapping
      boxes inside the container fill at most the container's volume. */
  lemma PackedVolumeBound(bs: seq<Box>, width: nat, length: nat, height: nat)
    requires AllPositive(bs) && PairwiseDisjoint(bs) && AllInside(bs, width, length, height)
    ensures 0 <= SumVolumes(bs) <= width * length * height
  {
    DisjointVolumeIsCellCount(bs);
    UnionInsideContainer(bs, width, length, height);
    CellsCardinality(ContainerBox(width, length, height));
    SubsetCardinality(UnionCells(bs), Cells(ContainerBox(width, length, height)));
  }

  lemma SubsetCardinality<T>(a: set<T>, b: set<T>)
    requires a <= b
    ensures |a| <= |b|
  {
    assert b == a + (b - a);
  }
}
