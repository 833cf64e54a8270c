/**
 * `rearrange_order` of rearrange_order.py: turns a packing into a loading
 * sequence. Items lying within the first 70% of the width (the large
 * section) come first, in their old load order; the rest (the small
 * section) follow in depth layers built back to front, bottom to top
 * within a layer. Every item is renumbered with its 1-based position in
 * the result; nothing but `load_order` changes.
 */
module Rearrange {
  import opened Wrappers
  import opened Geometry
  import opened Items
  import opened Scan
  import opened Sorting
  import opened Seqs
  import Subvolume

  /** `buffer`: how far beyond the current layer's depth an item may lie and
      still be absorbed into it. */
  const Buffer: int := 10

  /** The item lies entirely within the large section. */
  predicate InLarge(p: PlacedItem, lsw: int) {
    p.position.x + p.orientation.dx <= lsw
  }

  /** The record with its load order blanked: everything rearranging keeps. */
  function Unordered(p: PlacedItem): PlacedItem {
    p.(loadOrder := 0)
  }

  function UnorderedAll(s: seq<PlacedItem>): seq<PlacedItem> {
    Map(s, Unordered)
  }

  function LoadOrderOf(p: PlacedItem): int {
    p.loadOrder
  }

  function Depth(p: PlacedItem): int {
    p.position.y
  }

  function Height(p: PlacedItem): int {
    p.position.z
  }

  function LargeSection(items: seq<PlacedItem>, lsw: int): seq<PlacedItem> {
    Filter(items, (p: PlacedItem) => InLarge(p, lsw))
  }

  function SmallSection(items: seq<PlacedItem>, lsw: int): seq<PlacedItem> {
    Filter(items, (p: PlacedItem) => !InLarge(p, lsw))
  }

  /** `large_section.sort(key=load_order)`: stable, so items with equal load
      orders keep their input order. */
  function LargeOrder(items: seq<PlacedItem>, lsw: int): (r: seq<PlacedItem>)
    ensures multiset(r) == multiset(LargeSection(items, lsw))
    ensures forall i, j :: 0 <= i < j < |r| ==> r[i].loadOrder <= r[j].loadOrder
    ensures forall k :: WithKey(r, LoadOrderOf, k) == WithKey(LargeSection(items, lsw), LoadOrderOf, k)
  {
    var large := LargeSection(items, lsw);
    IntLessIsStrictTotalOrder();
    SortBySorted(large, LoadOrderOf, IntLess);
    forall k ensures WithKey(SortBy(large, LoadOrderOf, IntLess), LoadOrderOf, k) == WithKey(large, LoadOrderOf, k) {
      SortByStable(large, LoadOrderOf, IntLess, k);
    }
    SortBy(large, LoadOrderOf, IntLess)
  }

  /** The key `(-position[1], position[2])`. */
  function BackToFront(p: PlacedItem): (int, int) {
    (-p.position.y, p.position.z)
  }

  /** `small_section.sort(...)`: deepest first, then lowest first. */
  function SmallOrder(items: seq<PlacedItem>, lsw: int): (r: seq<PlacedItem>)
    ensures multiset(r) == multiset(SmallSection(items, lsw))
    ensures forall i, j :: 0 <= i < j < |r| ==>
              r[j].position.y < r[i].position.y ||
              (r[j].position.y == r[i].position.y && r[i].position.z <= r[j].position.z)
    ensures forall k :: WithKey(r, BackToFront, k) == WithKey(SmallSection(items, lsw), BackToFront, k)
  {
    var small := SmallSection(items, lsw);
    PairLessIsStrictTotalOrder();
    SortBySorted(small, BackToFront, PairLess);
    forall k ensures WithKey(SortBy(small, BackToFront, PairLess), BackToFront, k) == WithKey(small, BackToFront, k) {
      SortByStable(small, BackToFront, PairLess, k);
    }
    SortBy(small, BackToFront, PairLess)
  }

  /** `fitting_items.sort(key=position[2])`: lowest first, stable. */
  function ByHeight(s: seq<PlacedItem>): (r: seq<PlacedItem>)
    ensures multiset(r) == multiset(s)
    ensures forall i, j :: 0 <= i < j < |r| ==> r[i].position.z <= r[j].position.z
    ensures forall k :: WithKey(r, Height, k) == WithKey(s, Height, k)
  {
    IntLessIsStrictTotalOrder();
    SortBySorted(s, Height, IntLess);
    forall k ensures WithKey(SortBy(s, Height, IntLess), Height, k) == WithKey(s, Height, k) {
      SortByStable(s, Height, IntLess, k);
    }
    SortBy(s, Height, IntLess)
  }

  /** The layering loop's state: the finished layers, the current layer and
      `current_layer_length`. */
  datatype Layering = Layering(layers: seq<seq<PlacedItem>>, current: seq<PlacedItem>, depth: int)

  const NoLayers: Layering := Layering([], [], 0)

  /** Where `back_item` sits in the remaining items: the first item on the
      floor, or else the first item. */
  function BackIndex(s: seq<PlacedItem>): (k: nat)
    requires |s| > 0
    ensures k < |s|
    ensures forall j :: 0 <= j < k ==> s[j].position.z != 0
    ensures s[k].position.z == 0 || (k == 0 && forall j :: 0 <= j < |s| ==> s[j].position.z != 0)
  {
    match FirstMatch(s, (p: PlacedItem) => p.position.z == 0)
    case Some(k) => k
    case None => 0
  }

  function RemoveAt<T>(s: seq<T>, k: nat): (r: seq<T>)
    requires k < |s|
    ensures |r| == |s| - 1
    ensures multiset(r) + multiset{s[k]} == multiset(s)
  {
    assert s == s[..k] + [s[k]] + s[k + 1..];
    s[..k] + s[k + 1..]
  }

  /** The item lies no more than `limit` in front of the back wall. */
  predicate Within(p: PlacedItem, length: int, limit: int) {
    length - p.position.y <= limit
  }

  function WithinOf(length: int, limit: int): PlacedItem -> bool {
    (p: PlacedItem) => Within(p, length, limit)
  }

  function BeyondOf(length: int, limit: int): PlacedItem -> bool {
    (p: PlacedItem) => !Within(p, length, limit)
  }

  /** Place `back_item`: it opens a new layer exactly when its distance from
      the back wall exceeds the current layer's; otherwise it joins the
      current layer. */
  function Open(length: int, st: Layering, back: PlacedItem): (r: Layering)
    ensures length - back.position.y > st.depth ==>
      && r.layers == (if |st.current| > 0 then st.layers + [st.current] else st.layers)
      && r.current == [back] && r.depth == length - back.position.y
    ensures length - back.position.y <= st.depth ==>
      r.layers == st.layers && r.current == st.current + [back] && r.depth == st.depth
    ensures multiset(Flatten(r.layers) + r.current) == multiset(Flatten(st.layers) + st.current) + multiset{back}
  {
    var newDepth := length - back.position.y;
    if newDepth > st.depth then
      if |st.current| > 0 then
        FlattenAppend(st.layers, st.current);
        Layering(st.layers + [st.current], [back], newDepth)
      else
        Layering(st.layers, [back], newDepth)
    else
      Layering(st.layers, st.current + [back], st.depth)
  }

  /** The inner `while i < len(small_section)` loop: the items within
      `limit` of the back wall are popped into `fitting`, in order, and the
      others stay, in order. */
  function Split(length: int, limit: int, s: seq<PlacedItem>): (r: (seq<PlacedItem>, seq<PlacedItem>))
    ensures multiset(r.0) + multiset(r.1) == multiset(s)
    ensures |r.1| <= |s|
    ensures forall i :: 0 <= i < |r.0| ==> Within(r.0[i], length, limit)
    ensures forall i :: 0 <= i < |r.1| ==> !Within(r.1[i], length, limit)
    decreases |s|
  {
    if |s| == 0 then ([], [])
    else
      var (fit, stay) := Split(length, limit, s[1..]);
      assert s == [s[0]] + s[1..];
      if Within(s[0], length, limit) then ([s[0]] + fit, stay) else (fit, [s[0]] + stay)
  }

  /** The loop keeps input order on both sides: what it pops is the items
      within reach, and what stays is the others, each as a filter of the
      input would list them. */
  lemma {:induction false} SplitKeepsOrder(length: int, limit: int, s: seq<PlacedItem>)
    ensures Split(length, limit, s).0 == Filter(s, WithinOf(length, limit))
    ensures Split(length, limit, s).1 == Filter(s, BeyondOf(length, limit))
    decreases |s|
  {
    if |s| > 0 {
      SplitKeepsOrder(length, limit, s[1..]);
      var (fit, stay) := Split(length, limit, s[1..]);
      SplitStep(length, limit, s, fit, stay);
    }
  }

  /** One step of the loop: the first item goes to the side its distance
      picks, in front of what the rest of the items split into. */
  lemma SplitStep(length: int, limit: int, s: seq<PlacedItem>, fit: seq<PlacedItem>, stay: seq<PlacedItem>)
    requires |s| > 0
    requires fit == Filter(s[1..], WithinOf(length, limit))
    requires stay == Filter(s[1..], BeyondOf(length, limit))
    ensures Filter(s, WithinOf(length, limit)) == (if Within(s[0], length, limit) then [s[0]] else []) + fit
    ensures Filter(s, BeyondOf(length, limit)) == (if Within(s[0], length, limit) then [] else [s[0]]) + stay
  {
    assert WithinOf(length, limit)(s[0]) == Within(s[0], length, limit);
    assert BeyondOf(length, limit)(s[0]) == !Within(s[0], length, limit);
  }

  /** The inner loop and the sort after it: the remaining items within
      `limit` of the back wall, lowest first, and the others in order. */
  function Absorb(length: int, limit: int, rest: seq<PlacedItem>): (r: (seq<PlacedItem>, seq<PlacedItem>))
    ensures multiset(r.0) + multiset(r.1) == multiset(rest)
    ensures |r.1| <= |rest|
    ensures forall i, j :: 0 <= i < j < |r.0| ==> r.0[i].position.z <= r.0[j].position.z
    ensures forall i :: 0 <= i < |r.0| ==> Within(r.0[i], length, limit)
    ensures forall i :: 0 <= i < |r.1| ==> !Within(r.1[i], length, limit)
    ensures forall k :: WithKey(r.0, Height, k) == WithKey(Filter(rest, WithinOf(length, limit)), Height, k)
    ensures r.1 == Filter(rest, BeyondOf(length, limit))
  {
    var (fitting, remaining) := Split(length, limit, rest);
    SplitKeepsOrder(length, limit, rest);
    var sorted := ByHeight(fitting);
    forall i | 0 <= i < |sorted| ensures Within(sorted[i], length, limit) {
      assert sorted[i] in multiset(fitting);
      var j :| 0 <= j < |fitting| && fitting[j] == sorted[i];
    }
    (sorted, remaining)
  }

  /** One pass of `while small_section`: take `back_item` out, place it
      (`Open`), then absorb every remaining item within the layer's distance
      plus the buffer. Returns the new state and what remains. */
  function LayerStep(length: int, st: Layering, small: seq<PlacedItem>): (r: (Layering, seq<PlacedItem>))
    requires |small| > 0
    ensures |r.1| < |small|
    ensures multiset(Flatten(r.0.layers) + r.0.current) + multiset(r.1) ==
            multiset(Flatten(st.layers) + st.current) + multiset(small)
  {
    var k := BackIndex(small);
    var rest := RemoveAt(small, k);
    var started := Open(length, st, small[k]);
    var absorbed := Absorb(length, started.depth + Buffer, rest);
    StepCount(Flatten(started.layers), started.current, absorbed.0, absorbed.1, rest,
              multiset(Flatten(st.layers) + st.current), small[k], small);
    (started.(current := started.current + absorbed.0), absorbed.1)
  }

  lemma StepCount<T>(done: seq<T>, current: seq<T>, fit: seq<T>, stay: seq<T>, rest: seq<T>,
                     prior: multiset<T>, back: T, small: seq<T>)
    requires multiset(done + current) == prior + multiset{back}
    requires multiset(fit) + multiset(stay) == multiset(rest)
    requires multiset(rest) + multiset{back} == multiset(small)
    ensures multiset(done + (current + fit)) + multiset(stay) == prior + multiset(small)
  {
    assert done + (current + fit) == (done + current) + fit;
  }

  /** The layers laid end to end. */
  function Flatten(layers: seq<seq<PlacedItem>>): seq<PlacedItem>
  {
    if |layers| == 0 then [] else Flatten(layers[..|layers| - 1]) + layers[|layers| - 1]
  }

  lemma FlattenAppend(layers: seq<seq<PlacedItem>>, layer: seq<PlacedItem>)
    ensures Flatten(layers + [layer]) == Flatten(layers) + layer
  {
    assert (layers + [layer])[..|layers|] == layers;
  }

  /** `while small_section: ...`; terminates since each pass removes at
      least `back_item`. */
  function Layer(length: int, st: Layering, small: seq<PlacedItem>): Layering
    decreases |small|
  {
    if |small| == 0 then st
    else
      var (st', rest) := LayerStep(length, st, small);
      Layer(length, st', rest)
  }

  lemma {:induction false} LayerKeeps(length: int, st: Layering, small: seq<PlacedItem>)
    ensures var r := Layer(length, st, small);
      multiset(Flatten(r.layers) + r.current) == multiset(Flatten(st.layers) + st.current) + multiset(small)
    decreases |small|
  {
    if |small| > 0 {
      var (st', rest) := LayerStep(length, st, small);
      LayerKeeps(length, st', rest);
    }
  }

  /** `if current_layer: layers.append(current_layer)`. */
  function Close(st: Layering): seq<seq<PlacedItem>> {
    if |st.current| > 0 then st.layers + [st.current] else st.layers
  }

  lemma CloseKeeps(st: Layering)
    ensures Flatten(Close(st)) == Flatten(st.layers) + st.current
  {
    if |st.current| > 0 {
      FlattenAppend(st.layers, st.current);
    } else {
      assert Flatten(st.layers) + st.current == Flatten(st.layers);
    }
  }

  /** The small section in layer order, before renumbering. */
  function SmallLayered(items: seq<PlacedItem>, width: int, length: int): seq<PlacedItem> {
    Flatten(Close(Layer(length, NoLayers, SmallOrder(items, Subvolume.LargeSectionWidth(width)))))
  }

  lemma SmallLayeredKeeps(items: seq<PlacedItem>, width: int, length: int)
    ensures multiset(SmallLayered(items, width, length)) == multiset(SmallSection(items, Subvolume.LargeSectionWidth(width)))
  {
    var st := Layer(length, NoLayers, SmallOrder(items, Subvolume.LargeSectionWidth(width)));
    LayerKeeps(length, NoLayers, SmallOrder(items, Subvolume.LargeSectionWidth(width)));
    CloseKeeps(st);
    assert Flatten(NoLayers.layers) + NoLayers.current == [];
  }

  /** The enumerate-and-assign loops and `large_section +
      rearranged_small_section`: both parts in order, each item numbered
      with its 1-based position in the result. */
  function Assemble(large: seq<PlacedItem>, small: seq<PlacedItem>): (r: seq<PlacedItem>)
    ensures |r| == |large| + |small|
    ensures forall i :: 0 <= i < |large| ==> r[i] == large[i].(loadOrder := i + 1)
    ensures forall i :: 0 <= i < |small| ==> r[|large| + i] == small[i].(loadOrder := |large| + i + 1)
    ensures forall i :: 0 <= i < |r| ==> r[i].loadOrder == i + 1
  {
    var all := large + small;
    seq(|all|, i requires 0 <= i < |all| => all[i].(loadOrder := i + 1))
  }

  /** Renumbering keeps everything but the load order. */
  lemma AssembleUnordered(large: seq<PlacedItem>, small: seq<PlacedItem>)
    ensures UnorderedAll(Assemble(large, small)) == UnorderedAll(large + small)
  {
    var r := Assemble(large, small);
    forall i | 0 <= i < |r| ensures Unordered(r[i]) == Unordered((large + small)[i]) {
      if i >= |large| {
        assert r[|large| + (i - |large|)] == small[i - |large|].(loadOrder := i + 1);
      }
    }
  }

  /** `rearrange_order`. */
  function RearrangeOrder(items: seq<PlacedItem>, width: int, length: int): (r: seq<PlacedItem>)
    ensures |r| == |items|
    ensures forall i :: 0 <= i < |r| ==> r[i].loadOrder == i + 1
  {
    SectionsCount(items, width, length);
    Assemble(LargeOrder(items, Subvolume.LargeSectionWidth(width)), SmallLayered(items, width, length))
  }

  lemma SectionsCount(items: seq<PlacedItem>, width: int, length: int)
    ensures var lsw := Subvolume.LargeSectionWidth(width);
      |LargeOrder(items, lsw)| + |SmallLayered(items, width, length)| == |items|
  {
    var lsw := Subvolume.LargeSectionWidth(width);
    FilterPartition(items, (p: PlacedItem) => InLarge(p, lsw), (p: PlacedItem) => !InLarge(p, lsw));
    SmallLayeredKeeps(items, width, length);
    assert |multiset(LargeOrder(items, lsw))| == |LargeOrder(items, lsw)|;
    assert |multiset(SmallLayered(items, width, length))| == |SmallLayered(items, width, length)|;
  }

  /** Rearranging only renumbers: with load orders blanked, the result is a
      permutation of the input. */
  lemma RearrangeIsPermutation(items: seq<PlacedItem>, width: int, length: int)
    ensures multiset(UnorderedAll(RearrangeOrder(items, width, length))) == multiset(UnorderedAll(items))
  {
    var lsw := Subvolume.LargeSectionWidth(width);
    var lo := LargeOrder(items, lsw);
    var sl := SmallLayered(items, width, length);
    AssembleUnordered(lo, sl);
    SmallLayeredKeeps(items, width, length);
    FilterPartition(items, (p: PlacedItem) => InLarge(p, lsw), (p: PlacedItem) => !InLarge(p, lsw));
    assert multiset(lo + sl) == multiset(items);
    MapPermutation(lo + sl, items, Unordered);
  }

  /** The result opens with the large section: exactly the items lying
      within the first 70% of the width, ordered by their old load order
      (stably), each renumbered with its position. The rest lie beyond. */
  lemma RearrangeLargeFirst(items: seq<PlacedItem>, width: int, length: int)
    ensures var lsw := Subvolume.LargeSectionWidth(width);
      var r := RearrangeOrder(items, width, length);
      var before := LargeOrder(items, lsw);
      && |before| <= |r|
      && multiset(before) == multiset(LargeSection(items, lsw))
      && (forall i, j :: 0 <= i < j < |before| ==> before[i].loadOrder <= before[j].loadOrder)
      && (forall i :: 0 <= i < |before| ==> r[i] == before[i].(loadOrder := i + 1))
      && (forall i :: |before| <= i < |r| ==> !InLarge(r[i], lsw))
  {
    var lsw := Subvolume.LargeSectionWidth(width);
    var lo := LargeOrder(items, lsw);
    var sl := SmallLayered(items, width, length);
    assert RearrangeOrder(items, width, length) == Assemble(lo, sl);
    SmallNotLarge(items, width, length);
    AssembleSmallPart(lo, sl, lsw);
  }

  lemma AssembleSmallPart(large: seq<PlacedItem>, small: seq<PlacedItem>, lsw: int)
    requires forall j :: 0 <= j < |small| ==> !InLarge(small[j], lsw)
    ensures var r := Assemble(large, small);
      forall i :: |large| <= i < |r| ==> !InLarge(r[i], lsw)
  {
    var r := Assemble(large, small);
    forall i | |large| <= i < |r| ensures !InLarge(r[i], lsw) {
      var j := i - |large|;
      assert r[|large| + j] == small[j].(loadOrder := |large| + j + 1);
    }
  }

  lemma SmallNotLarge(items: seq<PlacedItem>, width: int, length: int)
    ensures var lsw := Subvolume.LargeSectionWidth(width);
      var sl := SmallLayered(items, width, length);
      forall j :: 0 <= j < |sl| ==> !InLarge(sl[j], lsw)
  {
    var lsw := Subvolume.LargeSectionWidth(width);
    var sl := SmallLayered(items, width, length);
    var small := SmallSection(items, lsw);
    SmallLayeredKeeps(items, width, length);
    forall j | 0 <= j < |sl| ensures !InLarge(sl[j], lsw) {
      assert sl[j] in multiset(small);
      assert sl[j] in small;
    }
  }

  /** The small section follows in layer order, renumbered from one past the
      large section. */
  lemma RearrangeSmallLayered(items: seq<PlacedItem>, width: int, length: int)
    ensures var lsw := Subvolume.LargeSectionWidth(width);
      var r := RearrangeOrder(items, width, length);
      var n := |LargeOrder(items, lsw)|;
      var layered := SmallLayered(items, width, length);
      && n + |layered| == |r|
      && multiset(layered) == multiset(SmallSection(items, lsw))
      && (forall i :: 0 <= i < |layered| ==> r[n + i] == layered[i].(loadOrder := n + i + 1))
  {
    SmallLayeredKeeps(items, width, length);
  }
}
