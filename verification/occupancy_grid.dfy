/**
 * The occupancy grid of the grid-based loaders (subvolume.py and the
 * loaders under loading/): a boolean array over the container's unit
 * cells, modelled as the set of occupied cells.
 */
module OccupancyGrid {
  import opened Geometry

  type Grid = set<Point>

  /** The grid loaders' placement test: the box stays under the container's
      far faces and every cell it would cover is empty. */
  predicate CanPlace(g: Grid, width: int, length: int, height: int, b: Box) {
    FitsUnder(b, width, length, height) && Cells(b) !! g
  }

  /** Mark every cell of the box occupied. A cell is occupied afterwards
      exactly when it was before or lies in the box. */
  function Occupy(g: Grid, b: Box): (r: Grid)
    ensures forall c :: c in r <==> c in g || InBox(c, b)
  {
    CellsMembership(b);
    g + Cells(b)
  }

  /** The grid holds exactly the cells of the boxes loaded so far, and those
      boxes are positive and pairwise non-overlapping. */
  predicate Mirrors(g: Grid, bs: seq<Box>) {
    g == UnionCells(bs) && AllPositive(bs) && PairwiseDisjoint(bs)
  }

  /** Against a grid that mirrors positive boxes, "all cells empty" is the
      same as "overlaps none of the loaded boxes". */
  lemma {:induction false} FreeIffNoOverlap(bs: seq<Box>, b: Box)
    requires AllPositive(bs) && Positive(b.size)
    ensures Cells(b) !! UnionCells(bs) <==> forall i :: 0 <= i < |bs| ==> !Overlaps(b, bs[i])
  {
    if |bs| > 0 {
      var pre := bs[..|bs| - 1];
      var last := bs[|bs| - 1];
      assert AllPositive(pre);
      FreeIffNoOverlap(pre, b);
      OverlapsIffSharedCell(b, last);
      assert forall i :: 0 <= i < |pre| ==> pre[i] == bs[i];
    }
  }

  /** Loading a positive box into empty cells keeps the grid a mirror of the
      loaded boxes, and the occupied cell count grows by the box's volume. */
  lemma OccupyKeepsMirror(g: Grid, bs: seq<Box>, b: Box)
    requires Mirrors(g, bs) && Positive(b.size) && Cells(b) !! g
    ensures Mirrors(Occupy(g, b), bs + [b])
    ensures |Occupy(g, b)| == |g| + Volume(b.size)
  {
    UnionAppend(bs, b);
    AppendDisjoint(bs, b);
    DisjointUnionCardinality(g, b);
  }

  lemma UnionAppend(bs: seq<Box>, b: Box)
    ensures UnionCells(bs + [b]) == UnionCells(bs) + Cells(b)
    ensures AllPositive(bs) && Positive(b.size) ==> AllPositive(bs + [b])
  {
    assert (bs + [b])[..|bs|] == bs;
  }

  lemma AppendDisjoint(bs: seq<Box>, b: Box)
    requires AllPositive(bs) && PairwiseDisjoint(bs) && Positive(b.size)
    requires Cells(b) !! UnionCells(bs)
    ensures PairwiseDisjoint(bs + [b])
  {
    var r := bs + [b];
    FreeIffNoOverlap(bs, b);
    forall i, j | 0 <= i < j < |r|
      ensures !Overlaps(r[i], r[j])
    {
      if j == |bs| {
        assert !Overlaps(b, bs[i]);
        OverlapsSymmetric(b, bs[i]);
      } else {
        assert r[i] == bs[i] && r[j] == bs[j];
      }
    }
  }

  lemma DisjointUnionCardinality(g: Grid, b: Box)
    requires Positive(b.size) && Cells(b) !! g
    ensures |g + Cells(b)| == |g| + Volume(b.size)
  {
    CellsCardinality(b);
    assert g * Cells(b) == {};
  }

  /** The occupied cell count of a mirror is the loaded boxes' summed volume. */
  lemma OccupiedIsLoadedVolume(g: Grid, bs: seq<Box>)
    requires Mirrors(g, bs)
    ensures |g| == SumVolumes(bs)
  {
    DisjointVolumeIsCellCount(bs);
  }
}
