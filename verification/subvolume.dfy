/**
 * The two-section packer of subvolume.py. The container is split at
 * x = int(0.7 * width): items no wider than that go to the large section
 * [0, split) in order of their PO number, the others to the small section
 * [split, width) in input order. Each item takes the first empty, supported
 * spot of the first of three orientations that has one, scanning x, then
 * y, then z upwards; a box above the floor needs at least 80% of its
 * footprint resting on occupied cells.
 */
module Subvolume {
  import opened Wrappers
  import opened Geometry
  import opened Items
  import opened Scan
  import opened Sorting
  import opened Seqs
  import opened OccupancyGrid
  import opened PlacedList
  import opened IntParse

  /** `int(width * 0.7)`, truncating toward zero (real arithmetic; see README
      for widths where the float product rounds differently). */
  function LargeSectionWidth(width: int): (r: int)
    ensures 0 <= width ==> 0 <= r <= width && 10 * r <= 7 * width < 10 * r + 10
    ensures width < 0 ==> width <= r <= 0 && 10 * r - 10 < 7 * width <= 10 * r
  {
    if width >= 0 then 7 * width / 10 else -((-7 * width) / 10)
  }

  /** `possible_orientations` of subvolume.py: the first three of the six rotations. */
  function Orientations(item: Item): (r: seq<Size>)
    ensures |r| == 3
    ensures forall o :: o in r ==> o in Rotations(Dims(item))
  {
    Rotations(Dims(item))[..3]
  }

  /** Records placed so far and the occupancy grid (`space`). */
  datatype State = State(packed: seq<PlacedItem>, space: Grid)

  /** The cells directly under the footprint of a box at `pos`. */
  function Underside(pos: Point, o: Size): Box {
    Box(Point(pos.x, pos.y, pos.z - 1), Size(o.dx, o.dy, 1))
  }

  /** Occupied cells under the footprint, never more than the footprint area. */
  function SupportedArea(space: Grid, pos: Point, o: Size): (r: nat)
    ensures 0 <= o.dx && 0 <= o.dy ==> r <= o.dx * o.dy
  {
    var under := Cells(Underside(pos, o));
    if 0 <= o.dx && 0 <= o.dy then
      CellsCardinality(Underside(pos, o));
      SubsetCardinality(under * space, under);
      |under * space|
    else |under * space|
  }

  /** On the floor, or at least 80% of the footprint on occupied cells. */
  predicate WellSupported(space: Grid, pos: Point, o: Size) {
    pos.z == 0 || 5 * SupportedArea(space, pos, o) >= 4 * (o.dx * o.dy)
  }

  /** The integer form of the support test is the source's ratio test
      `supported / total >= 0.8` over exact rationals. */
  lemma SupportRatio(supported: nat, total: int)
    requires total > 0
    ensures 5 * supported >= 4 * total <==> supported as real / total as real >= 0.8
  {
    var q := supported as real / total as real;
    assert q * total as real == supported as real;
  }

  /** `can_place_item`: under the far faces, all cells empty, well supported. */
  predicate CanPlaceItem(c: Container, space: Grid, pos: Point, o: Size) {
    OccupancyGrid.CanPlace(space, c.width, c.length, c.height, Box(pos, o)) && WellSupported(space, pos, o)
  }

  /** The corners `place_item` tries for one orientation in the section
      [startX, endX). */
  predicate InSectionScan(c: Container, startX: int, endX: int, o: Size, p: Point) {
    startX <= p.x < endX - o.dx + 1 && 0 <= p.y < c.length - o.dy + 1 && 0 <= p.z < c.height
  }

  /** The first spot for one orientation, scanning x, then y, then z. */
  function FirstSpot(c: Container, space: Grid, o: Size, startX: int, endX: int): (r: Option<Point>)
    ensures r.Some? ==> InSectionScan(c, startX, endX, o, r.value) && CanPlaceItem(c, space, r.value, o)
    ensures r.Some? ==> forall p :: InSectionScan(c, startX, endX, o, p) && LexLess((p.x, p.y, p.z), (r.value.x, r.value.y, r.value.z)) ==>
              !CanPlaceItem(c, space, p, o)
    ensures r.None? ==> forall p :: InSectionScan(c, startX, endX, o, p) ==> !CanPlaceItem(c, space, p, o)
  {
    var ok := (t: Triple) => CanPlaceItem(c, space, Point(t.0, t.1, t.2), o);
    var t := FirstInGrid(startX, endX - o.dx + 1, 0, c.length - o.dy + 1, 0, c.height, ok);
    if t.None? then
      assert forall p :: InSectionScan(c, startX, endX, o, p) ==> !CanPlaceItem(c, space, p, o) by {
        forall p | InSectionScan(c, startX, endX, o, p) ensures !CanPlaceItem(c, space, p, o) {
          assert InRanges((p.x, p.y, p.z), startX, endX - o.dx + 1, 0, c.length - o.dy + 1, 0, c.height);
          assert !ok((p.x, p.y, p.z));
        }
      }
      None
    else
      var q := Point(t.value.0, t.value.1, t.value.2);
      assert ok(t.value);
      assert forall p :: InSectionScan(c, startX, endX, o, p) && LexLess((p.x, p.y, p.z), (q.x, q.y, q.z)) ==>
          !CanPlaceItem(c, space, p, o) by {
        forall p | InSectionScan(c, startX, endX, o, p) && LexLess((p.x, p.y, p.z), (q.x, q.y, q.z))
          ensures !CanPlaceItem(c, space, p, o)
        {
          assert InRanges((p.x, p.y, p.z), startX, endX - o.dx + 1, 0, c.length - o.dy + 1, 0, c.height);
          assert !ok((p.x, p.y, p.z));
        }
      }
      Some(q)
  }

  function Spots(c: Container, space: Grid, os: seq<Size>, startX: int, endX: int): (r: seq<Option<Point>>)
    ensures |r| == |os|
    ensures forall j :: 0 <= j < |os| ==> r[j] == FirstSpot(c, space, os[j], startX, endX)
  {
    Map(os, (o: Size) => FirstSpot(c, space, o, startX, endX))
  }

  /** The orientation and corner `place_item` settles on: the first spot of
      the first orientation that has one. */
  function Choice(c: Container, space: Grid, item: Item, startX: int, endX: int): (r: Option<(Size, Point)>)
    ensures r.Some? ==> r.value.0 in Orientations(item) && InSectionScan(c, startX, endX, r.value.0, r.value.1)
    ensures r.Some? ==> CanPlaceItem(c, space, r.value.1, r.value.0)
  {
    var os := Orientations(item);
    var k := FirstMatch(Spots(c, space, os, startX, endX), (s: Option<Point>) => s.Some?);
    if k.None? then None
    else Some((os[k.value], FirstSpot(c, space, os[k.value], startX, endX).value))
  }

  /** `place_item`: the item takes the chosen spot, gets load order
      `len(packed) + 1`, and its cells are marked occupied; otherwise nothing
      changes. Feasibility of the spot is `PlaceItemFeasible`. */
  function PlaceItem(c: Container, st: State, item: Item, startX: int, endX: int): (r: State)
    ensures r == st || |r.packed| == |st.packed| + 1
    ensures |r.packed| == |st.packed| + 1 ==>
      var p := r.packed[|st.packed|];
      && r.packed[..|st.packed|] == st.packed
      && IsPlacementOf(p, item) && p.orientation in Orientations(item)
      && p.loadOrder == |st.packed| + 1
      && InSectionScan(c, startX, endX, p.orientation, p.position)
  {
    match Choice(c, st.space, item, startX, endX)
    case None => st
    case Some((o, pos)) =>
      var p := Place(item, pos, o, |st.packed| + 1);
      var r := State(st.packed + [p], Occupy(st.space, BoxOf(p)));
      assert r.packed[..|st.packed|] == st.packed;
      r
  }

  /** A placed item passed `can_place_item` against the grid before it, and
      the grid afterwards also has the item's cells. */
  lemma PlaceItemFeasible(c: Container, st: State, item: Item, startX: int, endX: int)
    ensures var r := PlaceItem(c, st, item, startX, endX);
      |r.packed| == |st.packed| + 1 ==>
        && CanPlaceItem(c, st.space, r.packed[|st.packed|].position, r.packed[|st.packed|].orientation)
        && r.space == Occupy(st.space, BoxOf(r.packed[|st.packed|]))
  {
  }

  /** Which spot `place_item` takes: an earlier orientation has no spot in
      the section, and no earlier corner of the chosen orientation works.
      The item stays out exactly when no orientation has a spot. */
  lemma PlaceItemIsFirstFit(c: Container, st: State, item: Item, startX: int, endX: int)
    ensures var r := PlaceItem(c, st, item, startX, endX);
      var os := Orientations(item);
      |r.packed| == |st.packed| + 1 ==>
        var q := r.packed[|st.packed|].position;
        exists k :: 0 <= k < 3 && r.packed[|st.packed|].orientation == os[k]
          && (forall j, p :: 0 <= j < k && InSectionScan(c, startX, endX, os[j], p) ==> !CanPlaceItem(c, st.space, p, os[j]))
          && (forall p :: (InSectionScan(c, startX, endX, os[k], p) && LexLess((p.x, p.y, p.z), (q.x, q.y, q.z)))
                ==> !CanPlaceItem(c, st.space, p, os[k]))
    ensures PlaceItem(c, st, item, startX, endX) == st <==>
      forall o, p :: o in Orientations(item) && InSectionScan(c, startX, endX, o, p) ==> !CanPlaceItem(c, st.space, p, o)
  {
    var os := Orientations(item);
    var sp := Spots(c, st.space, os, startX, endX);
    var k := FirstMatch(sp, (s: Option<Point>) => s.Some?);
    if k.None? {
      forall o, p | o in os && InSectionScan(c, startX, endX, o, p) ensures !CanPlaceItem(c, st.space, p, o) {
        var j :| 0 <= j < |os| && os[j] == o;
        assert sp[j].None?;
      }
    } else {
      var o := os[k.value];
      var pos := sp[k.value].value;
      assert o in os && InSectionScan(c, startX, endX, o, pos) && CanPlaceItem(c, st.space, pos, o);
      assert |PlaceItem(c, st, item, startX, endX).packed| == |st.packed| + 1;
      forall j, p | 0 <= j < k.value && InSectionScan(c, startX, endX, os[j], p)
        ensures !CanPlaceItem(c, st.space, p, os[j])
      {
        assert sp[j].None?;
      }
    }
  }

  /** The loop of `pack_large_section` / `pack_small_section`. */
  function PlaceAll(c: Container, st: State, items: seq<Item>, startX: int, endX: int): (r: State)
    ensures |st.packed| <= |r.packed| <= |st.packed| + |items|
    ensures r.packed[..|st.packed|] == st.packed
    ensures forall i :: |st.packed| <= i < |r.packed| ==> InSection(r.packed[i], startX, endX)
    decreases |items|
  {
    if |items| == 0 then st
    else
      var mid := PlaceAll(c, st, items[..|items| - 1], startX, endX);
      var r := PlaceItem(c, mid, items[|items| - 1], startX, endX);
      assert r.packed[..|st.packed|] == mid.packed[..|st.packed|];
      SectionStep(mid.packed, r.packed, |st.packed|, startX, endX);
      r
  }

  /** Where a record sits relative to the split: wholly inside [startX, endX) along x. */
  predicate InSection(p: PlacedItem, startX: int, endX: int) {
    startX <= p.position.x && p.position.x + p.orientation.dx <= endX
  }

  /** The `i`-th record was well supported by the records before it. */
  predicate SupportedOnPlacement(packed: seq<PlacedItem>, i: int)
    requires 0 <= i < |packed|
  {
    WellSupported(UnionCells(Boxes(packed[..i])), packed[i].position, packed[i].orientation)
  }

  /** The packer's invariant: the grid holds exactly the cells of the placed
      boxes, which are positive, pairwise disjoint and inside the container;
      load orders run 1, 2, ...; each record was well supported on placement. */
  predicate Consistent(c: Container, st: State) {
    && Mirrors(st.space, Boxes(st.packed))
    && (forall i :: 0 <= i < |st.packed| ==> Inside(BoxOf(st.packed[i]), c.width, c.length, c.height))
    && (forall i :: 0 <= i < |st.packed| ==> st.packed[i].loadOrder == i + 1)
    && (forall i :: 0 <= i < |st.packed| ==> SupportedOnPlacement(st.packed, i))
  }

  lemma PlaceItemKeepsConsistent(c: Container, st: State, item: Item, startX: int, endX: int)
    requires Consistent(c, st) && Positive(Dims(item)) && 0 <= startX
    ensures Consistent(c, PlaceItem(c, st, item, startX, endX))
  {
    var r := PlaceItem(c, st, item, startX, endX);
    if |r.packed| == |st.packed| + 1 {
      var p := r.packed[|st.packed|];
      PlaceItemFeasible(c, st, item, startX, endX);
      PositiveRotations(Dims(item));
      assert r.packed == st.packed + [p];
      ExtendKeepsConsistent(c, st, p);
    }
  }

  /** Appending a positive record that passed `can_place_item` at a corner
      with non-negative coordinates, and occupying its cells, keeps the
      invariant. */
  lemma ExtendKeepsConsistent(c: Container, st: State, p: PlacedItem)
    requires Consistent(c, st)
    requires Positive(p.orientation) && 0 <= p.position.x && 0 <= p.position.y && 0 <= p.position.z
    requires CanPlaceItem(c, st.space, p.position, p.orientation)
    requires p.loadOrder == |st.packed| + 1
    ensures Consistent(c, State(st.packed + [p], Occupy(st.space, BoxOf(p))))
  {
    var r := st.packed + [p];
    assert Mirrors(Occupy(st.space, BoxOf(p)), Boxes(r)) by {
      OccupyKeepsMirror(st.space, Boxes(st.packed), BoxOf(p));
      MapConcat(st.packed, [p], BoxOf);
    }
    AppendSupported(st.packed, p);
    AppendInside(c, st.packed, p);
  }

  lemma AppendInside(c: Container, packed: seq<PlacedItem>, p: PlacedItem)
    requires forall i :: 0 <= i < |packed| ==> Inside(BoxOf(packed[i]), c.width, c.length, c.height)
    requires forall i :: 0 <= i < |packed| ==> packed[i].loadOrder == i + 1
    requires Inside(BoxOf(p), c.width, c.length, c.height) && p.loadOrder == |packed| + 1
    ensures forall i :: 0 <= i < |packed| + 1 ==>
      Inside(BoxOf((packed + [p])[i]), c.width, c.length, c.height) && (packed + [p])[i].loadOrder == i + 1
  {
    var r := packed + [p];
    forall i | 0 <= i < |r| ensures Inside(BoxOf(r[i]), c.width, c.length, c.height) && r[i].loadOrder == i + 1 {
      if i < |packed| {
        assert r[i] == packed[i];
      }
    }
  }

  lemma AppendSupported(packed: seq<PlacedItem>, p: PlacedItem)
    requires forall i :: 0 <= i < |packed| ==> SupportedOnPlacement(packed, i)
    requires WellSupported(UnionCells(Boxes(packed)), p.position, p.orientation)
    ensures forall i :: 0 <= i < |packed| + 1 ==> SupportedOnPlacement(packed + [p], i)
  {
    var r := packed + [p];
    forall i | 0 <= i < |r| ensures SupportedOnPlacement(r, i) {
      if i < |packed| {
        assert SupportedOnPlacement(packed, i);
        assert r[..i] == packed[..i] && r[i] == packed[i];
      } else {
        assert r[..i] == packed;
      }
    }
  }

  lemma {:induction false} PlaceAllConsistent(c: Container, st: State, items: seq<Item>, startX: int, endX: int)
    requires Consistent(c, st) && 0 <= startX
    requires forall i :: 0 <= i < |items| ==> Positive(Dims(items[i]))
    ensures Consistent(c, PlaceAll(c, st, items, startX, endX))
    decreases |items|
  {
    if |items| > 0 {
      PlaceAllConsistent(c, st, items[..|items| - 1], startX, endX);
      PlaceItemKeepsConsistent(c, PlaceAll(c, st, items[..|items| - 1], startX, endX), items[|items| - 1], startX, endX);
    }
  }

  lemma SectionStep(prev: seq<PlacedItem>, r: seq<PlacedItem>, base: nat, startX: int, endX: int)
    requires forall i :: base <= i < |prev| ==> InSection(prev[i], startX, endX)
    requires |r| == |prev| || |r| == |prev| + 1
    requires r[..|prev|] == prev
    requires |r| == |prev| + 1 ==> startX <= r[|prev|].position.x < endX - r[|prev|].orientation.dx + 1
    ensures forall i :: base <= i < |r| ==> InSection(r[i], startX, endX)
  {
    forall i | base <= i < |r| ensures InSection(r[i], startX, endX) {
      if i < |prev| {
        assert r[..|prev|][i] == r[i];
      }
    }
  }

  /** Every record a pass adds is a placement of one of the pass's items,
      each item placed at most once. */
  lemma {:induction false} PlaceAllAccounts(c: Container, st: State, seen: seq<Item>, items: seq<Item>, startX: int, endX: int)
    requires FromItems(seen, st.packed)
    requires multiset(PackedIds(st.packed)) <= multiset(ItemIds(seen))
    ensures var r := PlaceAll(c, st, items, startX, endX);
      FromItems(seen + items, r.packed) && multiset(PackedIds(r.packed)) <= multiset(ItemIds(seen + items))
    decreases |items|
  {
    if |items| > 0 {
      var mid := PlaceAll(c, st, items[..|items| - 1], startX, endX);
      PlaceAllAccounts(c, st, seen, items[..|items| - 1], startX, endX);
      AccountStep(mid.packed, PlaceItem(c, mid, items[|items| - 1], startX, endX).packed, seen, items);
    } else {
      assert seen + items == seen;
    }
  }

  lemma AccountStep(prev: seq<PlacedItem>, r: seq<PlacedItem>, seen: seq<Item>, items: seq<Item>)
    requires |items| > 0
    requires FromItems(seen + items[..|items| - 1], prev)
    requires multiset(PackedIds(prev)) <= multiset(ItemIds(seen + items[..|items| - 1]))
    requires |r| == |prev| || |r| == |prev| + 1
    requires r[..|prev|] == prev
    requires |r| == |prev| + 1 ==> IsPlacementOf(r[|prev|], items[|items| - 1])
    ensures FromItems(seen + items, r) && multiset(PackedIds(r)) <= multiset(ItemIds(seen + items))
  {
    var pre := items[..|items| - 1];
    ExtendFromItems(prev, seen + pre, items[|items| - 1], r);
    ExtendIds(prev, seen + pre, items[|items| - 1], r);
    assert seen + pre + [items[|items| - 1]] == seen + items;
  }

  /** The PO number `int(location[2:])` the large section is ordered by
      ("po12" gives 12, "po-1" gives -1, " po 7 " raises); a location
      shorter than two characters leaves the empty string, which raises. */
  function PoNumber(location: string): (r: Option<int>)
    ensures |location| < 2 ==> r.None?
    ensures |location| >= 2 ==> (r.Some? <==> IntLiteral(Strip(location[2..])))
  {
    ParseInt(if |location| >= 2 then location[2..] else "")
  }

  /** Any two-character prefix followed by the rendering of a number gives
      that number back. */
  lemma PoNumberShow(prefix: string, n: int)
    requires |prefix| == 2
    ensures PoNumber(prefix + ShowInt(n)) == Some(n)
  {
    assert (prefix + ShowInt(n))[2..] == ShowInt(n);
    ParseIntShow(n);
  }

  /** A negative PO number parses: "po-1" has key -1. */
  lemma PoNumberNegative()
    ensures PoNumber("po-1") == Some(-1)
  {
    PoNumberShow("po", -1);
    assert ShowInt(-1) == "-1";
  }

  function PoKey(it: Item): int {
    match PoNumber(it.location)
    case Some(n) => n
    case None => 0
  }

  predicate IsLarge(lsw: int, it: Item) {
    it.width <= lsw
  }

  /** The items of each section, in input order. */
  function LargeItems(c: Container, items: seq<Item>): seq<Item> {
    Filter(items, (it: Item) => IsLarge(LargeSectionWidth(c.width), it))
  }

  function SmallItems(c: Container, items: seq<Item>): seq<Item> {
    Filter(items, (it: Item) => !IsLarge(LargeSectionWidth(c.width), it))
  }

  /** The order `pack_large_section` places its items in: sorted by PO
      number, items with the same PO number in input order. */
  function LargeOrder(c: Container, items: seq<Item>): (r: seq<Item>)
    ensures multiset(r) == multiset(LargeItems(c, items))
    ensures SortedBy(r, PoKey, IntLess)
    ensures forall k :: WithKey(r, PoKey, k) == WithKey(LargeItems(c, items), PoKey, k)
  {
    IntLessIsStrictTotalOrder();
    SortBySorted(LargeItems(c, items), PoKey, IntLess);
    assert forall k :: WithKey(SortBy(LargeItems(c, items), PoKey, IntLess), PoKey, k) == WithKey(LargeItems(c, items), PoKey, k) by {
      forall k ensures WithKey(SortBy(LargeItems(c, items), PoKey, IntLess), PoKey, k) == WithKey(LargeItems(c, items), PoKey, k) {
        SortByStable(LargeItems(c, items), PoKey, IntLess, k);
      }
    }
    SortBy(LargeItems(c, items), PoKey, IntLess)
  }

  /** Every large-section item has a PO number, so sorting cannot raise. */
  predicate PoNumbersParse(c: Container, items: seq<Item>) {
    forall it :: it in LargeItems(c, items) ==> PoNumber(it.location).Some?
  }

  /** `pack_items`: the large section first, then the small section, on one
      grid. `None` where the PO-number sort raises before anything is placed. */
  function PackItems(c: Container, items: seq<Item>): (r: Option<State>)
    ensures r.None? <==>
      exists it :: it in items && it.width <= LargeSectionWidth(c.width) && PoNumber(it.location).None?
  {
    var lsw := LargeSectionWidth(c.width);
    if !PoNumbersParse(c, items) then None
    else
      var st := PlaceAll(c, State([], {}), LargeOrder(c, items), 0, lsw);
      Some(PlaceAll(c, st, SmallItems(c, items), lsw, c.width))
  }

  lemma EmptyConsistent(c: Container)
    ensures Consistent(c, State([], {}))
  {
    assert Boxes([]) == [];
  }

  /** The packing `pack_items` returns is consistent (grid mirrors the
      boxes, no overlaps, inside the container, load orders 1, 2, ..., each
      box at least 80% supported when placed), its records come from the
      items, each item at most once, and the occupied cells are the loaded
      volume, at most the container's. */
  lemma PackItemsInvariant(c: Container, items: seq<Item>)
    requires 0 <= c.width && 0 <= c.length && 0 <= c.height
    requires forall i :: 0 <= i < |items| ==> Positive(Dims(items[i]))
    requires PackItems(c, items).Some?
    ensures var st := PackItems(c, items).value;
      && Consistent(c, st)
      && FromItems(items, st.packed)
      && multiset(PackedIds(st.packed)) <= multiset(ItemIds(items))
      && |st.space| == SumVolumes(Boxes(st.packed)) <= c.width * c.length * c.height
  {
    var order := LargeOrder(c, items);
    var small := SmallItems(c, items);
    SectionsPartition(c, items);
    AllPositiveSub(order + small, items);
    var st := Passes(c, order, small);
    PassesInvariant(c, order, small);
    FromItemsReordered(order + small, items, st.packed);
    MapPermutation(order + small, items, (it: Item) => it.id);
    VolumeFacts(c, st);
  }

  /** The large pass then the small pass, as `pack_items` runs them. */
  function Passes(c: Container, order: seq<Item>, small: seq<Item>): State {
    var lsw := LargeSectionWidth(c.width);
    PlaceAll(c, PlaceAll(c, State([], {}), order, 0, lsw), small, lsw, c.width)
  }

  lemma PassesInvariant(c: Container, order: seq<Item>, small: seq<Item>)
    requires 0 <= c.width
    requires forall i :: 0 <= i < |order + small| ==> Positive(Dims((order + small)[i]))
    ensures var st := Passes(c, order, small);
      && Consistent(c, st)
      && FromItems(order + small, st.packed)
      && multiset(PackedIds(st.packed)) <= multiset(ItemIds(order + small))
  {
    var lsw := LargeSectionWidth(c.width);
    var st1 := PlaceAll(c, State([], {}), order, 0, lsw);
    assert forall i :: 0 <= i < |order| ==> order[i] == (order + small)[i];
    assert forall i :: 0 <= i < |small| ==> small[i] == (order + small)[|order| + i];
    EmptyConsistent(c);
    PlaceAllConsistent(c, State([], {}), order, 0, lsw);
    PlaceAllConsistent(c, st1, small, lsw, c.width);
    assert PackedIds([]) == [] && ItemIds([]) == [];
    PlaceAllAccounts(c, State([], {}), [], order, 0, lsw);
    assert [] + order == order;
    PlaceAllAccounts(c, st1, order, small, lsw, c.width);
  }

  lemma VolumeFacts(c: Container, st: State)
    requires 0 <= c.width && 0 <= c.length && 0 <= c.height
    requires Consistent(c, st)
    ensures |st.space| == SumVolumes(Boxes(st.packed)) <= c.width * c.length * c.height
  {
    OccupiedIsLoadedVolume(st.space, Boxes(st.packed));
    PackedVolumeBound(Boxes(st.packed), c.width, c.length, c.height);
  }

  lemma AllPositiveSub(a: seq<Item>, b: seq<Item>)
    requires multiset(a) <= multiset(b)
    requires forall i :: 0 <= i < |b| ==> Positive(Dims(b[i]))
    ensures forall i :: 0 <= i < |a| ==> Positive(Dims(a[i]))
  {
    forall i | 0 <= i < |a| ensures Positive(Dims(a[i])) {
      assert a[i] in multiset(b);
      var j :| 0 <= j < |b| && b[j] == a[i];
    }
  }

  /** The two sections together hold every item exactly once. */
  lemma SectionsPartition(c: Container, items: seq<Item>)
    ensures multiset(LargeOrder(c, items) + SmallItems(c, items)) == multiset(items)
  {
    var lsw := LargeSectionWidth(c.width);
    FilterPartition(items, (it: Item) => IsLarge(lsw, it), (it: Item) => !IsLarge(lsw, it));
  }

  /** How many records the large-section pass placed. */
  function LargeCount(c: Container, items: seq<Item>): nat {
    |PlaceAll(c, State([], {}), LargeOrder(c, items), 0, LargeSectionWidth(c.width)).packed|
  }

  /** The large-section records come first and lie in [0, split); the
      small-section records follow and lie in [split, width). */
  lemma PackItemsSections(c: Container, items: seq<Item>)
    requires PackItems(c, items).Some?
    ensures var packed := PackItems(c, items).value.packed;
      var lsw := LargeSectionWidth(c.width);
      var n := LargeCount(c, items);
      && n <= |packed|
      && (forall i :: 0 <= i < n ==> InSection(packed[i], 0, lsw))
      && (forall i :: n <= i < |packed| ==> InSection(packed[i], lsw, c.width))
  {
    PassesSections(c, LargeOrder(c, items), SmallItems(c, items));
  }

  lemma PassesSections(c: Container, order: seq<Item>, small: seq<Item>)
    ensures var lsw := LargeSectionWidth(c.width);
      var n := |PlaceAll(c, State([], {}), order, 0, lsw).packed|;
      var packed := Passes(c, order, small).packed;
      && n <= |packed|
      && (forall i :: 0 <= i < n ==> InSection(packed[i], 0, lsw))
      && (forall i :: n <= i < |packed| ==> InSection(packed[i], lsw, c.width))
  {
    var lsw := LargeSectionWidth(c.width);
    var st1 := PlaceAll(c, State([], {}), order, 0, lsw);
    var st := PlaceAll(c, st1, small, lsw, c.width);
    var n := |st1.packed|;
    forall i | 0 <= i < n ensures InSection(st.packed[i], 0, lsw) {
      assert st.packed[..n][i] == st.packed[i];
    }
  }
}
