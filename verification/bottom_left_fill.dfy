/**
 * The bottom-left-fill packer of bl_ffhdc.py: items sorted by decreasing
 * largest extent; each item goes to the lowest (z, then y, then x) feasible
 * corner over its six orientations, or to the unplaced list.
 */
module BottomLeftFill {
  import opened Wrappers
  import opened Geometry
  import opened Items
  import opened Scan
  import opened Sorting
  import opened Seqs
  import opened PlacedList

  /** `is_better_position`: lower z first, then lower y, then lower x. */
  predicate IsBetterPosition(a: Point, b: Point) {
    a.z < b.z || (a.z == b.z && a.y < b.y) || (a.z == b.z && a.y == b.y && a.x < b.x)
  }

  /** The comparison is exactly the order in which the corner scan visits
      corners, so it is a strict total order. */
  lemma IsBetterPositionIsScanOrder(a: Point, b: Point, c: Point)
    ensures IsBetterPosition(a, b) <==> ZyxBefore(a, b)
    ensures !IsBetterPosition(a, a)
    ensures IsBetterPosition(a, b) && IsBetterPosition(b, c) ==> IsBetterPosition(a, c)
    ensures a != b ==> IsBetterPosition(a, b) || IsBetterPosition(b, a)
  {
    LexLessIsStrictOrder((a.z, a.y, a.x), (b.z, b.y, b.x), (c.z, c.y, c.x));
  }

  /** The orientation loop of `pack_items` over the bottom-left corners found
      for each orientation (`None` where an orientation fits nowhere): the
      index kept is the first whose corner is best. */
  function BestCorner(cs: seq<Option<Point>>): (r: Option<nat>)
    ensures r.Some? ==> r.value < |cs| && cs[r.value].Some?
    ensures r.Some? ==> forall j :: 0 <= j < |cs| && cs[j].Some? ==> !IsBetterPosition(cs[j].value, cs[r.value].value)
    ensures r.Some? ==> forall j :: 0 <= j < r.value && cs[j].Some? ==> IsBetterPosition(cs[r.value].value, cs[j].value)
    ensures r.None? ==> forall j :: 0 <= j < |cs| ==> cs[j].None?
    decreases |cs|
  {
    if |cs| == 0 then None
    else
      var n := |cs| - 1;
      var prev := BestCorner(cs[..n]);
      assert forall j :: 0 <= j < n ==> cs[..n][j] == cs[j];
      if cs[n].Some? && (prev.None? || IsBetterPosition(cs[n].value, cs[prev.value].value)) then
        assert forall j :: 0 <= j < n && cs[j].Some? ==> IsBetterPosition(cs[n].value, cs[j].value) by {
          forall j | 0 <= j < n && cs[j].Some?
            ensures IsBetterPosition(cs[n].value, cs[j].value)
          {
            IsBetterPositionIsScanOrder(cs[n].value, cs[prev.value].value, cs[j].value);
            IsBetterPositionIsScanOrder(cs[prev.value].value, cs[j].value, cs[prev.value].value);
          }
        }
        IsBetterPositionIsScanOrder(cs[n].value, cs[n].value, cs[n].value);
        Some(n)
      else
        prev
  }

  /** Packed records and the items that found no place, in processing order. */
  datatype Packing = Packing(packed: seq<PlacedItem>, unplaced: seq<Item>)

  /** One iteration of the item loop of `pack_items`: either the item is
      appended with the next load order at a feasible scanned corner in one
      of its rotations, or it joins the unplaced list. `PackStepIsLowest`
      states which corner is chosen and when the item is rejected. */
  function PackStep(c: Container, st: Packing, item: Item): (r: Packing)
    ensures r.unplaced == st.unplaced ==>
      && |r.packed| == |st.packed| + 1 && r.packed[..|st.packed|] == st.packed
      && IsPlacementOf(r.packed[|st.packed|], item) && r.packed[|st.packed|].loadOrder == |st.packed| + 1
      && InScan(c, r.packed[|st.packed|].position)
      && CanPlace(c, st.packed, r.packed[|st.packed|].position, r.packed[|st.packed|].orientation)
    ensures r.unplaced != st.unplaced ==> r.packed == st.packed && r.unplaced == st.unplaced + [item]
  {
    var os := Rotations(Dims(item));
    var best := BestCorner(Corners(c, st.packed, os));
    if best.None? then
      Packing(st.packed, st.unplaced + [item])
    else
      var o := os[best.value];
      CornersBeatScan(c, st.packed, os, best.value);
      var p := Place(item, FindBottomLeftPosition(c, st.packed, o).value, o, |st.packed| + 1);
      var r := Packing(st.packed + [p], st.unplaced);
      assert r.packed[..|st.packed|] == st.packed;
      r
  }

  /** The corner chosen for a placed item is the lowest: no feasible corner
      of any rotation comes strictly before it in (z, y, x) order. An item is
      rejected only when no rotation has a feasible corner in the scan. */
  lemma PackStepIsLowest(c: Container, st: Packing, item: Item)
    ensures var r := PackStep(c, st, item);
      r.unplaced == st.unplaced ==>
        forall o, q :: o in Rotations(Dims(item)) && InScan(c, q) && CanPlace(c, st.packed, q, o) ==>
          !IsBetterPosition(q, r.packed[|st.packed|].position)
    ensures PackStep(c, st, item).unplaced != st.unplaced ==>
      forall o, q :: o in Rotations(Dims(item)) && InScan(c, q) ==> !CanPlace(c, st.packed, q, o)
  {
    var os := Rotations(Dims(item));
    var cs := Corners(c, st.packed, os);
    var best := BestCorner(cs);
    if best.None? {
      forall o, q | o in os && InScan(c, q) ensures !CanPlace(c, st.packed, q, o) {
        var j :| 0 <= j < |os| && os[j] == o;
        assert cs[j].None?;
      }
    } else {
      CornersBeatScan(c, st.packed, os, best.value);
    }
  }

  /** When the `k`-th corner is the best one, no feasible corner of any
      orientation comes strictly before it. */
  lemma CornersBeatScan(c: Container, packed: seq<PlacedItem>, os: seq<Size>, k: nat)
    requires k < |os|
    requires BestCorner(Corners(c, packed, os)) == Some(k)
    ensures FindBottomLeftPosition(c, packed, os[k]).Some?
    ensures InScan(c, FindBottomLeftPosition(c, packed, os[k]).value)
    ensures CanPlace(c, packed, FindBottomLeftPosition(c, packed, os[k]).value, os[k])
    ensures forall o, q :: o in os && InScan(c, q) && CanPlace(c, packed, q, o) ==>
              !IsBetterPosition(q, FindBottomLeftPosition(c, packed, os[k]).value)
  {
    var cs := Corners(c, packed, os);
    var pos := cs[k].value;
    forall o, q | o in os && InScan(c, q) && CanPlace(c, packed, q, o)
      ensures !IsBetterPosition(q, pos)
    {
      var j :| 0 <= j < |os| && os[j] == o;
      var first := cs[j];
      assert first.Some?;
      assert !IsBetterPosition(first.value, pos);
      assert !ZyxBefore(q, first.value);
      IsBetterPositionIsScanOrder(q, first.value, pos);
      IsBetterPositionIsScanOrder(first.value, q, pos);
      IsBetterPositionIsScanOrder(q, pos, first.value);
    }
  }

  /** Every record is a rotation of some item, and every item appears once,
      either as a record or in the unplaced list. */
  predicate Accounted(items: seq<Item>, r: Packing) {
    && multiset(PackedIds(r.packed)) + multiset(ItemIds(r.unplaced)) == multiset(ItemIds(items))
    && FromItems(items, r.packed)
    && (forall u :: u in r.unplaced ==> u in items)
  }

  lemma StepAccounted(c: Container, all: seq<Item>, st: Packing)
    requires |all| > 0
    requires Accounted(all[..|all| - 1], st)
    ensures Accounted(all, PackStep(c, st, all[|all| - 1]))
  {
    var items, item := all[..|all| - 1], all[|all| - 1];
    assert all == items + [item];
    StepIds(st, items, item, PackStep(c, st, item));
    StepOrigins(c, st, items, item);
  }

  lemma StepIds(st: Packing, items: seq<Item>, item: Item, r: Packing)
    requires multiset(PackedIds(st.packed)) + multiset(ItemIds(st.unplaced)) == multiset(ItemIds(items))
    requires || (|r.packed| == |st.packed| + 1 && r.packed[..|st.packed|] == st.packed
                 && r.packed[|st.packed|].id == item.id && r.unplaced == st.unplaced)
             || (r.packed == st.packed && r.unplaced == st.unplaced + [item])
    ensures multiset(PackedIds(r.packed)) + multiset(ItemIds(r.unplaced)) == multiset(ItemIds(items + [item]))
  {
    MapConcat(items, [item], (it: Item) => it.id);
    if r.unplaced == st.unplaced && |r.packed| == |st.packed| + 1 {
      var p := r.packed[|st.packed|];
      assert r.packed == st.packed + [p];
      MapConcat(st.packed, [p], (q: PlacedItem) => q.id);
    } else {
      MapConcat(st.unplaced, [item], (it: Item) => it.id);
    }
  }

  lemma StepOrigins(c: Container, st: Packing, items: seq<Item>, item: Item)
    requires FromItems(items, st.packed)
    requires forall u :: u in st.unplaced ==> u in items
    ensures FromItems(items + [item], PackStep(c, st, item).packed)
    ensures forall u :: u in PackStep(c, st, item).unplaced ==> u in items + [item]
  {
    var r := PackStep(c, st, item);
    if r.unplaced == st.unplaced {
      ExtendFromItems(st.packed, items, item, r.packed);
    } else {
      assert r.packed[..|st.packed|] == st.packed;
      ExtendFromItems(st.packed, items, item, r.packed);
    }
    forall u | u in r.unplaced ensures u in items + [item] {
      if u !in st.unplaced {
        assert r.unplaced == st.unplaced + [item];
      }
    }
  }

  lemma StepWellPacked(c: Container, st: Packing, item: Item)
    requires WellPacked(c, st.packed)
    ensures WellPacked(c, PackStep(c, st, item).packed)
  {
    var r := PackStep(c, st, item);
    if r.unplaced == st.unplaced {
      var p := r.packed[|st.packed|];
      assert r.packed == st.packed + [p];
      AppendKeepsWellPacked(c, st.packed, p);
    }
  }

  /** What the item loop maintains after the first `n` items. */
  predicate LoopInvariant(c: Container, items: seq<Item>, r: Packing) {
    WellPacked(c, r.packed) && Accounted(items, r) && |r.packed| + |r.unplaced| == |items|
  }

  lemma StepKeepsInvariant(c: Container, items: seq<Item>, st: Packing)
    requires |items| > 0
    requires LoopInvariant(c, items[..|items| - 1], st)
    ensures LoopInvariant(c, items, PackStep(c, st, items[|items| - 1]))
  {
    StepAccounted(c, items, st);
    StepWellPacked(c, st, items[|items| - 1]);
  }

  /** The item loop of `pack_items` over items already in processing order. */
  function PackInOrder(c: Container, items: seq<Item>): (r: Packing)
    ensures LoopInvariant(c, items, r)
    decreases |items|
  {
    if |items| == 0 then Packing([], [])
    else
      var st := PackInOrder(c, items[..|items| - 1]);
      StepKeepsInvariant(c, items, st);
      PackStep(c, st, items[|items| - 1])
  }

  function MaxDim(item: Item): int {
    Max(item.width, Max(item.length, item.height))
  }

  /** The processing order of `pack_items`: stably by decreasing largest extent. */
  function PackingOrder(items: seq<Item>): (r: seq<Item>)
    ensures multiset(r) == multiset(items)
    ensures forall i, j :: 0 <= i < j < |r| ==> MaxDim(r[i]) >= MaxDim(r[j])
    ensures forall k :: WithKey(r, NegMaxDim, k) == WithKey(items, NegMaxDim, k)
  {
    var r := SortBy(items, NegMaxDim, IntLess);
    IntLessIsStrictTotalOrder();
    SortBySorted(items, NegMaxDim, IntLess);
    forall k ensures WithKey(r, NegMaxDim, k) == WithKey(items, NegMaxDim, k) {
      SortByStable(items, NegMaxDim, IntLess, k);
    }
    r
  }

  /** The sort key `-max(width, length, height)`. */
  function NegMaxDim(item: Item): int {
    -MaxDim(item)
  }

  /** The result of `pack_items`: the packing and the utilisation it reports. */
  datatype Outcome = Outcome(packing: Packing, utilization: Option<real>)

  /** `pack_items`. Every record is a well-placed rotation of an input item,
      every item is either placed once or unplaced once, and the utilisation
      is that of the placed boxes. */
  function PackItems(c: Container, items: seq<Item>): (r: Outcome)
    ensures WellPacked(c, r.packing.packed)
    ensures Accounted(items, r.packing)
    ensures r.utilization == Utilization(c, r.packing.packed)
  {
    var order := PackingOrder(items);
    var packing := PackInOrder(c, order);
    assert WellPacked(c, packing.packed) && Accounted(order, packing);
    SameItems(order, items, packing);
    Outcome(packing, Utilization(c, packing.packed))
  }

  /** Accounting is insensitive to the order the items came in. */
  lemma SameItems(a: seq<Item>, b: seq<Item>, r: Packing)
    requires multiset(a) == multiset(b)
    requires Accounted(a, r)
    ensures Accounted(b, r)
  {
    MapPermutation(a, b, (it: Item) => it.id);
    FromItemsReordered(a, b, r.packed);
    forall u | u in r.unplaced ensures u in b {
      assert u in multiset(a);
    }
  }

  /** With a positive container and positive item extents, the reported
      utilisation is a fraction in [0, 1]. */
  lemma PackItemsUtilizationBounds(c: Container, items: seq<Item>)
    requires 0 < c.width && 0 < c.length && 0 < c.height
    requires forall it :: it in items ==> Positive(Dims(it))
    ensures PackItems(c, items).utilization.Some?
    ensures 0.0 <= PackItems(c, items).utilization.value <= 1.0
  {
    var packed := PackItems(c, items).packing.packed;
    forall i | 0 <= i < |packed| ensures Positive(packed[i].orientation) {
      assert ComesFrom(packed[i], items);
      var j :| 0 <= j < |items| && IsPlacementOf(packed[i], items[j]);
      PositiveRotations(Dims(items[j]));
    }
    UtilizationInUnitInterval(c, packed);
  }
}
