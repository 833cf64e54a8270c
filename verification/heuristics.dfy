/**
 * The randomised first-fit packer of heuristics.py: each item goes to the
 * first feasible corner of the first orientation that has one, and the best
 * of several item orders (by utilisation) is kept.
 */
module Heuristics {
  import opened Wrappers
  import opened Geometry
  import opened Items
  import opened Scan
  import opened Seqs
  import opened PlacedList

  /** The orientation loop of `pack_items`: the index of the first
      orientation with a feasible corner; no earlier orientation has one. */
  function FirstFeasibleRotation(c: Container, packed: seq<PlacedItem>, os: seq<Size>): (r: Option<nat>)
    ensures r.Some? ==> r.value < |os| && FindBottomLeftPosition(c, packed, os[r.value]).Some?
    ensures r.Some? ==> forall j, q :: 0 <= j < r.value && InScan(c, q) ==> !CanPlace(c, packed, q, os[j])
    ensures r.None? ==> forall j, q :: 0 <= j < |os| && InScan(c, q) ==> !CanPlace(c, packed, q, os[j])
  {
    var cs := Corners(c, packed, os);
    FirstMatch(cs, (x: Option<Point>) => x.Some?)
  }

  /** One iteration of the item loop: the item is appended at the first
      feasible corner of the first feasible orientation, with the next load
      order, or dropped when no orientation fits anywhere. */
  function PackStep(c: Container, packed: seq<PlacedItem>, item: Item): (r: seq<PlacedItem>)
    ensures |r| == |packed| || |r| == |packed| + 1
    ensures r[..|packed|] == packed
    ensures |r| == |packed| + 1 ==>
      && IsPlacementOf(r[|packed|], item) && r[|packed|].loadOrder == |packed| + 1
      && InScan(c, r[|packed|].position) && CanPlace(c, packed, r[|packed|].position, r[|packed|].orientation)
  {
    var os := Rotations(Dims(item));
    var k := FirstFeasibleRotation(c, packed, os);
    if k.None? then packed
    else
      var pos := FindBottomLeftPosition(c, packed, os[k.value]).value;
      var r := packed + [Place(item, pos, os[k.value], |packed| + 1)];
      assert r[..|packed|] == packed;
      r
  }

  /** Which orientation and corner the step takes: the first orientation in
      the source's order that fits somewhere, at its first corner in (z, y, x)
      order. The item is dropped exactly when no orientation fits anywhere. */
  lemma PackStepIsFirstFit(c: Container, packed: seq<PlacedItem>, item: Item)
    ensures var r := PackStep(c, packed, item);
      var os := Rotations(Dims(item));
      |r| == |packed| + 1 ==>
        exists k :: 0 <= k < |os| && r[|packed|].orientation == os[k]
          && (forall j, q :: 0 <= j < k && InScan(c, q) ==> !CanPlace(c, packed, q, os[j]))
          && (forall q :: InScan(c, q) && ZyxBefore(q, r[|packed|].position) ==> !CanPlace(c, packed, q, os[k]))
    ensures |PackStep(c, packed, item)| == |packed| <==>
      forall o, q :: o in Rotations(Dims(item)) && InScan(c, q) ==> !CanPlace(c, packed, q, o)
  {
    var os := Rotations(Dims(item));
    var k := FirstFeasibleRotation(c, packed, os);
    if k.None? {
      forall o, q | o in os && InScan(c, q) ensures !CanPlace(c, packed, q, o) {
        var j :| 0 <= j < |os| && os[j] == o;
      }
    } else {
      var pos := FindBottomLeftPosition(c, packed, os[k.value]).value;
      assert os[k.value] in os && InScan(c, pos) && CanPlace(c, packed, pos, os[k.value]);
    }
  }

  /** `pack_items` for one item order: a well-packed list in which every
      record is a rotation of a distinct input item. */
  function PackItems(c: Container, items: seq<Item>): (r: seq<PlacedItem>)
    ensures RunInvariant(c, items, r)
    decreases |items|
  {
    if |items| == 0 then []
    else
      var packed := PackItems(c, items[..|items| - 1]);
      StepKeepsInvariant(c, items, packed);
      PackStep(c, packed, items[|items| - 1])
  }

  /** Every record comes from an item of `items`, no item twice. */
  predicate RunInvariant(c: Container, items: seq<Item>, r: seq<PlacedItem>) {
    && WellPacked(c, r) && |r| <= |items|
    && multiset(PackedIds(r)) <= multiset(ItemIds(items))
    && FromItems(items, r)
  }

  lemma StepKeepsInvariant(c: Container, items: seq<Item>, packed: seq<PlacedItem>)
    requires |items| > 0
    requires RunInvariant(c, items[..|items| - 1], packed)
    ensures RunInvariant(c, items, PackStep(c, packed, items[|items| - 1]))
  {
    var n := |items| - 1;
    var r := PackStep(c, packed, items[n]);
    assert items == items[..n] + [items[n]];
    StepWellPacked(c, packed, items[n]);
    ExtendIds(packed, items[..n], items[n], r);
    ExtendFromItems(packed, items[..n], items[n], r);
  }

  lemma StepWellPacked(c: Container, packed: seq<PlacedItem>, item: Item)
    requires WellPacked(c, packed)
    ensures WellPacked(c, PackStep(c, packed, item))
  {
    var r := PackStep(c, packed, item);
    if |r| == |packed| + 1 {
      var p := r[|packed|];
      assert r == packed + [p];
      AppendKeepsWellPacked(c, packed, p);
    } else {
      assert r == packed;
    }
  }

  /** One packing run: its records and their utilisation. */
  datatype Run = Run(packed: seq<PlacedItem>, utilization: real)

  /** The best run kept so far; `run` names the run it came from (`None`
      while the initial empty packing with utilisation 0 is kept). */
  datatype Best = Best(packed: seq<PlacedItem>, utilization: real, run: Option<nat>)

  /** The comparison loop of `pack_items_with_permutations`. The kept
      utilisation starts at 0 and is replaced only by a strictly greater one,
      so the result is the first run attaining the maximum, or the empty
      packing when no run beats 0. */
  function BestRun(runs: seq<Run>): (r: Best)
    ensures r.utilization >= 0.0
    ensures forall k :: 0 <= k < |runs| ==> runs[k].utilization <= r.utilization
    ensures r.run.None? ==> r.packed == [] && r.utilization == 0.0
    ensures r.run.Some? ==>
      && r.run.value < |runs| && r.utilization > 0.0
      && r.packed == runs[r.run.value].packed && r.utilization == runs[r.run.value].utilization
      && forall j :: 0 <= j < r.run.value ==> runs[j].utilization < r.utilization
    decreases |runs|
  {
    if |runs| == 0 then Best([], 0.0, None)
    else
      var n := |runs| - 1;
      var prev := BestRun(runs[..n]);
      assert forall k :: 0 <= k < n ==> runs[..n][k] == runs[k];
      if runs[n].utilization > prev.utilization then Best(runs[n].packed, runs[n].utilization, Some(n))
      else prev
  }

  /** Each run can only raise the kept utilisation. */
  lemma {:induction false} BestNeverDecreases(runs: seq<Run>, k: nat)
    requires k <= |runs|
    ensures BestRun(runs[..k]).utilization <= BestRun(runs).utilization
    decreases |runs|
  {
    if k < |runs| {
      var n := |runs| - 1;
      assert runs[..n][..k] == runs[..k];
      BestNeverDecreases(runs[..n], k);
    } else {
      assert runs[..k] == runs;
    }
  }

  /** The runs of `pack_items_with_permutations`, one per shuffled order. */
  function Runs(c: Container, orders: seq<seq<Item>>): (r: seq<Run>)
    requires ContainerVolume(c) != 0
    ensures |r| == |orders|
    ensures forall k :: 0 <= k < |orders| ==> RunInvariant(c, orders[k], r[k].packed)
    ensures forall k :: 0 <= k < |orders| ==> Utilization(c, r[k].packed) == Some(r[k].utilization)
  {
    seq(|orders|, k requires 0 <= k < |orders| =>
      var packed := PackItems(c, orders[k]);
      Run(packed, Utilization(c, packed).value))
  }

  /** `pack_items_with_permutations` with the shuffles' outcomes as input:
      with every order a shuffle of the same items, the kept packing is well
      packed, places only those items, each at most once, and no run had a
      higher utilisation. */
  function PackItemsWithPermutations(c: Container, items: seq<Item>, orders: seq<seq<Item>>): (r: Best)
    requires ContainerVolume(c) != 0
    requires forall k :: 0 <= k < |orders| ==> multiset(orders[k]) == multiset(items)
    ensures WellPacked(c, r.packed)
    ensures multiset(PackedIds(r.packed)) <= multiset(ItemIds(items))
    ensures FromItems(items, r.packed)
    ensures forall k :: 0 <= k < |orders| ==> Utilization(c, PackItems(c, orders[k])).value <= r.utilization
  {
    var b := BestRun(Runs(c, orders));
    if b.run.None? then b
    else
      var k := b.run.value;
      MapPermutation(orders[k], items, (it: Item) => it.id);
      FromItemsReordered(orders[k], items, b.packed);
      b
  }
}
