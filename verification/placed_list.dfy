/**
 * The feasibility test and scan shared by the two placed-list packers
 * (bl_ffhdc.py and heuristics.py): a candidate box is tested directly
 * against the list of boxes placed so far.
 */
module PlacedList {
  import opened Wrappers
  import opened Geometry
  import opened Items
  import opened Scan
  import opened Seqs

  /** `p` holds up a candidate box at `pos` with extents `o`: its top is exactly
      at the candidate's bottom and the two footprints overlap with positive area. */
  predicate SupportsAt(p: PlacedItem, pos: Point, o: Size) {
    && p.position.z + p.orientation.dz == pos.z
    && pos.x < p.position.x + p.orientation.dx && p.position.x < pos.x + o.dx
    && pos.y < p.position.y + p.orientation.dy && p.position.y < pos.y + o.dy
  }

  predicate NoOverlapWith(packed: seq<PlacedItem>, b: Box) {
    forall i :: 0 <= i < |packed| ==> !Overlaps(b, BoxOf(packed[i]))
  }

  predicate SupportedBy(packed: seq<PlacedItem>, pos: Point, o: Size) {
    exists i :: 0 <= i < |packed| && SupportsAt(packed[i], pos, o)
  }

  /** `can_place_item`: within the container, no interior overlap with a
      placed box, and above the floor resting on some placed box. */
  predicate CanPlace(c: Container, packed: seq<PlacedItem>, pos: Point, o: Size) {
    && FitsUnder(Box(pos, o), c.width, c.length, c.height)
    && NoOverlapWith(packed, Box(pos, o))
    && (pos.z > 0 ==> SupportedBy(packed, pos, o))
  }

  /** The invariant of a placed list: every box inside the container, no two
      boxes overlapping, every box above the floor resting on an earlier box,
      and load orders 1, 2, ... in list order. */
  predicate WellPacked(c: Container, packed: seq<PlacedItem>) {
    && (forall i :: 0 <= i < |packed| ==> Inside(BoxOf(packed[i]), c.width, c.length, c.height))
    && (forall i, j :: 0 <= i < j < |packed| ==> !Overlaps(BoxOf(packed[i]), BoxOf(packed[j])))
    && (forall i :: 0 <= i < |packed| ==> RestsOnEarlier(packed, i))
    && (forall i :: 0 <= i < |packed| ==> packed[i].loadOrder == i + 1)
  }

  /** The `i`-th box is on the floor or held up by a box placed before it. */
  predicate RestsOnEarlier(packed: seq<PlacedItem>, i: int)
    requires 0 <= i < |packed|
  {
    packed[i].position.z > 0 ==> SupportedBy(packed[..i], packed[i].position, packed[i].orientation)
  }

  /** Appending a record that passed `CanPlace` at a scanned corner, with the
      next load order, keeps the list well packed. */
  lemma AppendKeepsWellPacked(c: Container, packed: seq<PlacedItem>, p: PlacedItem)
    requires WellPacked(c, packed)
    requires CanPlace(c, packed, p.position, p.orientation)
    requires InScan(c, p.position)
    requires p.loadOrder == |packed| + 1
    ensures WellPacked(c, packed + [p])
  {
    var r := packed + [p];
    assert r[..|packed|] == packed;
    forall i, j | 0 <= i < j < |r|
      ensures !Overlaps(BoxOf(r[i]), BoxOf(r[j]))
    {
      if j == |packed| {
        OverlapsSymmetric(BoxOf(p), BoxOf(packed[i]));
      }
    }
    forall i | 0 <= i < |r|
      ensures RestsOnEarlier(r, i)
    {
      if i < |packed| {
        assert RestsOnEarlier(packed, i);
        assert r[..i] == packed[..i] && r[i] == packed[i];
      }
    }
  }

  /** `find_bottom_left_position`: the first feasible corner when z, then y,
      then x run upwards. No feasible corner of the scan comes earlier in
      that order; `None` when the scan has no feasible corner at all. */
  function FindBottomLeftPosition(c: Container, packed: seq<PlacedItem>, o: Size): (r: Option<Point>)
    ensures r.Some? ==> InScan(c, r.value) && CanPlace(c, packed, r.value, o)
    ensures r.Some? ==> forall p :: InScan(c, p) && ZyxBefore(p, r.value) ==> !CanPlace(c, packed, p, o)
    ensures r.None? ==> forall p :: InScan(c, p) ==> !CanPlace(c, packed, p, o)
  {
    var ok := (t: Triple) => CanPlace(c, packed, Point(t.2, t.1, t.0), o);
    var t := FirstInGrid(0, c.height, 0, c.length, 0, c.width, ok);
    if t.None? then
      assert forall p :: InScan(c, p) ==> !CanPlace(c, packed, p, o) by {
        forall p | InScan(c, p) ensures !CanPlace(c, packed, p, o) {
          assert InRanges((p.z, p.y, p.x), 0, c.height, 0, c.length, 0, c.width);
          assert !ok((p.z, p.y, p.x));
        }
      }
      None
    else
      var q := Point(t.value.2, t.value.1, t.value.0);
      assert ok(t.value);
      assert forall p :: InScan(c, p) && ZyxBefore(p, q) ==> !CanPlace(c, packed, p, o) by {
        forall p | InScan(c, p) && ZyxBefore(p, q) ensures !CanPlace(c, packed, p, o) {
          assert InRanges((p.z, p.y, p.x), 0, c.height, 0, c.length, 0, c.width);
          assert LexLess((p.z, p.y, p.x), t.value);
          assert !ok((p.z, p.y, p.x));
        }
      }
      Some(q)
  }

  /** The bottom-left corner of each orientation in turn. */
  function Corners(c: Container, packed: seq<PlacedItem>, os: seq<Size>): (r: seq<Option<Point>>)
    ensures |r| == |os|
    ensures forall j :: 0 <= j < |os| ==> r[j] == FindBottomLeftPosition(c, packed, os[j])
  {
    Map(os, (o: Size) => FindBottomLeftPosition(c, packed, o))
  }

  /** Strictly earlier in the z, then y, then x order. */
  predicate ZyxBefore(a: Point, b: Point) {
    LexLess((a.z, a.y, a.x), (b.z, b.y, b.x))
  }

  /** The record ties back to one input item: same id, zone and weight, and
      its orientation is one of the item's rotations. */
  predicate IsPlacementOf(p: PlacedItem, item: Item) {
    p.id == item.id && p.location == item.location && p.weight == item.weight &&
    p.orientation in Rotations(Dims(item))
  }

  /** The record is a placement of one of `items`. */
  predicate ComesFrom(p: PlacedItem, items: seq<Item>) {
    exists j :: 0 <= j < |items| && IsPlacementOf(p, items[j])
  }

  /** Every record is a placement of one of `items`. */
  predicate FromItems(items: seq<Item>, r: seq<PlacedItem>) {
    forall i :: 0 <= i < |r| ==> ComesFrom(r[i], items)
  }

  lemma ComesFromAppend(p: PlacedItem, items: seq<Item>, extra: seq<Item>)
    ensures ComesFrom(p, items) ==> ComesFrom(p, items + extra)
    ensures ComesFrom(p, extra) ==> ComesFrom(p, items + extra)
  {
    if ComesFrom(p, items) {
      var j :| 0 <= j < |items| && IsPlacementOf(p, items[j]);
      assert (items + extra)[j] == items[j];
    }
    if ComesFrom(p, extra) {
      var j :| 0 <= j < |extra| && IsPlacementOf(p, extra[j]);
      assert (items + extra)[|items| + j] == extra[j];
    }
  }

  lemma ComesFromReordered(p: PlacedItem, a: seq<Item>, b: seq<Item>)
    requires multiset(a) == multiset(b)
    requires ComesFrom(p, a)
    ensures ComesFrom(p, b)
  {
    var j :| 0 <= j < |a| && IsPlacementOf(p, a[j]);
    assert a[j] in multiset(b);
    var k :| 0 <= k < |b| && b[k] == a[j];
  }

  /** Extending a list by at most one record, a placement of `item`, keeps
      every record traceable to the items seen so far. */
  lemma ExtendFromItems(packed: seq<PlacedItem>, items: seq<Item>, item: Item, r: seq<PlacedItem>)
    requires FromItems(items, packed)
    requires |r| == |packed| || |r| == |packed| + 1
    requires r[..|packed|] == packed
    requires |r| == |packed| + 1 ==> IsPlacementOf(r[|packed|], item)
    ensures FromItems(items + [item], r)
  {
    forall i | 0 <= i < |r|
      ensures ComesFrom(r[i], items + [item])
    {
      if i < |packed| {
        assert r[..|packed|][i] == r[i];
        ComesFromAppend(r[i], items, [item]);
      } else {
        assert [item][0] == item;
        ComesFromAppend(r[i], items, [item]);
      }
    }
  }

  /** Extending a list by at most one record for `item` keeps its ids a
      sub-multiset of the ids of the items seen so far. */
  lemma ExtendIds(packed: seq<PlacedItem>, items: seq<Item>, item: Item, r: seq<PlacedItem>)
    requires multiset(PackedIds(packed)) <= multiset(ItemIds(items))
    requires |r| == |packed| || |r| == |packed| + 1
    requires r[..|packed|] == packed
    requires |r| == |packed| + 1 ==> r[|packed|].id == item.id
    ensures multiset(PackedIds(r)) <= multiset(ItemIds(items + [item]))
  {
    MapConcat(items, [item], (it: Item) => it.id);
    if |r| == |packed| + 1 {
      var p := r[|packed|];
      assert r == packed + [p];
      MapConcat(packed, [p], (q: PlacedItem) => q.id);
    } else {
      assert r == packed;
    }
  }

  lemma FromItemsReordered(a: seq<Item>, b: seq<Item>, r: seq<PlacedItem>)
    requires multiset(a) == multiset(b)
    requires FromItems(a, r)
    ensures FromItems(b, r)
  {
    forall i | 0 <= i < |r| ensures ComesFrom(r[i], b) {
      ComesFromReordered(r[i], a, b);
    }
  }

  function Boxes(packed: seq<PlacedItem>): seq<Box> {
    Map(packed, BoxOf)
  }

  function PackedIds(packed: seq<PlacedItem>): seq<int> {
    Map(packed, (p: PlacedItem) => p.id)
  }

  function ItemIds(items: seq<Item>): seq<int> {
    Map(items, (it: Item) => it.id)
  }

  /** `calculate_capacity_utilization`: the summed orientation volumes of the
      placed boxes over the container volume. `None` where the source divides
      by zero. */
  function Utilization(c: Container, packed: seq<PlacedItem>): (r: Option<real>)
    ensures r.None? <==> ContainerVolume(c) == 0
    ensures r.Some? ==> r.value * (ContainerVolume(c) as real) == SumVolumes(Boxes(packed)) as real
  {
    if ContainerVolume(c) == 0 then None
    else Some(SumVolumes(Boxes(packed)) as real / ContainerVolume(c) as real)
  }

  lemma PositiveRotations(s: Size)
    requires Positive(s)
    ensures forall o :: o in Rotations(s) ==> Positive(o)
  {
    RotationsPreserveVolume(s);
    forall o | o in Rotations(s) ensures Positive(o) {
      assert o.dx in multiset{s.dx, s.dy, s.dz};
      assert o.dy in multiset{s.dx, s.dy, s.dz};
      assert o.dz in multiset{s.dx, s.dy, s.dz};
    }
  }

  /** A well-packed list of positive boxes fills between none and all of the
      container: utilisation lies in [0, 1]. */
  lemma UtilizationInUnitInterval(c: Container, packed: seq<PlacedItem>)
    requires 0 < c.width && 0 < c.length && 0 < c.height
    requires WellPacked(c, packed)
    requires forall i :: 0 <= i < |packed| ==> Positive(packed[i].orientation)
    ensures Utilization(c, packed).Some?
    ensures 0.0 <= Utilization(c, packed).value <= 1.0
  {
    BoxesFacts(c, packed);
    var v := ContainerVolume(c);
    PositiveProduct(c.width, c.length, c.height);
    RatioInUnitInterval(SumVolumes(Boxes(packed)), v);
  }

  lemma BoxesFacts(c: Container, packed: seq<PlacedItem>)
    requires 0 < c.width && 0 < c.length && 0 < c.height
    requires WellPacked(c, packed)
    requires forall i :: 0 <= i < |packed| ==> Positive(packed[i].orientation)
    ensures 0 <= SumVolumes(Boxes(packed)) <= ContainerVolume(c)
  {
    var bs := Boxes(packed);
    assert AllPositive(bs);
    assert PairwiseDisjoint(bs);
    assert AllInside(bs, c.width, c.length, c.height);
    PackedVolumeBound(bs, c.width, c.length, c.height);
  }

  lemma PositiveProduct(a: int, b: int, d: int)
    requires 0 < a && 0 < b && 0 < d
    ensures a * b * d > 0
  {
    assert a * b > 0;
  }

  lemma RatioInUnitInterval(s: int, v: int)
    requires 0 <= s <= v && v > 0
    ensures 0.0 <= s as real / v as real <= 1.0
  {
  }
}
