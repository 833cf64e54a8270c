/**
 * The cursor row filler of loading/loaded.py. Specs are sorted by label and
 * every copy of a box is put at a single cursor, which then moves along x;
 * when the next box of the same size would stick out in x the cursor starts
 * a new row further along y, and when it would stick out in y a new layer
 * further up z. Nothing is rotated and no occupancy is tracked.
 *
 * The source advances to a new row by the current box's own depth and to a
 * new layer by its own height, so a deeper or taller box met earlier in the
 * row or layer is overlapped by the next row or layer (`AsWrittenOverlaps`).
 * `Corrected` advances by the deepest box of the row and the tallest box of
 * the layer instead, and keeps all loaded boxes disjoint
 * (`CorrectedRunDisjoint`).
 */
module RowFiller {
  import opened Geometry
  import opened Items
  import opened Sorting
  import opened Seqs
  import opened GridLoading

  /** `container_size` of the source. */
  const ContainerSize: Container := Container(6, 6, 6)

  /** `box_specs` of the source: (width, length, height), count, label. */
  const BoxSpecs: seq<Spec> := [
    Spec(Size(1, 1, 1), 10, "A"),
    Spec(Size(2, 1, 1), 10, "B"),
    Spec(Size(1, 2, 1), 10, "C"),
    Spec(Size(1, 1, 2), 5, "A"),
    Spec(Size(2, 2, 1), 5, "B"),
    Spec(Size(2, 1, 2), 5, "C"),
    Spec(Size(1, 2, 2), 5, "A")
  ]

  /** How the cursor moves on after a box is loaded. */
  datatype Rule = AsWritten | Corrected

  /** The filler's state: `boxes_to_load`, `current_position`, and for the
      corrected rule the depth of the current row and the height of the
      current layer so far. */
  datatype Filler = Filler(boxes: seq<Loaded>, cursor: Point, rowDepth: int, layerHeight: int)

  const Start: Filler := Filler([], Point(0, 0, 0), 0, 0)

  function SpecTag(s: Spec): string {
    s.tag
  }

  /** `sorted_box_specs`: a stable sort by label. */
  function SortSpecs(specs: seq<Spec>): (r: seq<Spec>)
    ensures multiset(r) == multiset(specs)
    ensures forall i, j :: 0 <= i < j < |r| ==> !StrLess(r[j].tag, r[i].tag)
  {
    StrLessIsStrictTotalOrder();
    SortBySorted(specs, SpecTag, StrLess);
    var r := SortBy(specs, SpecTag, StrLess);
    assert forall i, j :: 0 <= i < j < |r| ==> !StrLess(SpecTag(r[j]), SpecTag(r[i]));
    r
  }

  /** Specs with the same label keep their input order. */
  lemma SortSpecsStable(specs: seq<Spec>, tag: string)
    ensures WithKey(SortSpecs(specs), SpecTag, tag) == WithKey(specs, SpecTag, tag)
  {
    StrLessIsStrictTotalOrder();
    SortByStable(specs, SpecTag, StrLess, tag);
  }

  /** The guard: the box fits under the container's far faces at `p`. */
  predicate FitsAt(c: Container, p: Point, s: Size) {
    p.x + s.dx <= c.width && p.y + s.dy <= c.length && p.z + s.dz <= c.height
  }

  /** `a` comes before `b` when the cursor walks rows along x, rows back
      along y, and layers up along z. */
  predicate CursorBefore(a: Point, b: Point) {
    a.z < b.z || (a.z == b.z && (a.y < b.y || (a.y == b.y && a.x < b.x)))
  }

  /** Where the cursor goes after loading a box of size `s` at `p`, given
      the depth of the row and the height of the layer including that box.
      With positive advances it always moves forward, and it stays put in a
      row only where one more box of that width fits. */
  function NextCursor(c: Container, p: Point, s: Size, rowAdvance: int, layerAdvance: int): (r: Point)
    ensures s.dx > 0 && rowAdvance > 0 && layerAdvance > 0 ==> CursorBefore(p, r)
    ensures r.x == 0 || r.x + s.dx <= c.width
    ensures r.x != 0 ==> r.y == p.y && r.z == p.z
    ensures p.x + s.dx + s.dx <= c.width ==> r == Point(p.x + s.dx, p.y, p.z)
    ensures p.x + s.dx + s.dx > c.width && p.y + rowAdvance + s.dy <= c.length ==> r == Point(0, p.y + rowAdvance, p.z)
    ensures p.x + s.dx + s.dx > c.width && p.y + rowAdvance + s.dy > c.length ==> r == Point(0, 0, p.z + layerAdvance)
  {
    var x := p.x + s.dx;
    if x + s.dx <= c.width then Point(x, p.y, p.z)
    else if p.y + rowAdvance + s.dy <= c.length then Point(0, p.y + rowAdvance, p.z)
    else Point(0, 0, p.z + layerAdvance)
  }

  /** One copy of a box. A box that does not fit at the cursor is skipped
      and changes nothing; one that fits is loaded at the cursor, unrotated. */
  function Step(c: Container, rule: Rule, f: Filler, s: Size, tag: string): (r: Filler)
    ensures !FitsAt(c, f.cursor, s) ==> r == f
    ensures FitsAt(c, f.cursor, s) ==> r.boxes == f.boxes + [Loaded(f.cursor, s, tag)]
    ensures rule.AsWritten? && FitsAt(c, f.cursor, s) ==> r.cursor == NextCursor(c, f.cursor, s, s.dy, s.dz)
  {
    if !FitsAt(c, f.cursor, s) then f
    else
      var boxes := f.boxes + [Loaded(f.cursor, s, tag)];
      match rule
      case AsWritten =>
        Filler(boxes, NextCursor(c, f.cursor, s, s.dy, s.dz), 0, 0)
      case Corrected =>
        var depth := Max(f.rowDepth, s.dy);
        var height := Max(f.layerHeight, s.dz);
        var p := NextCursor(c, f.cursor, s, depth, height);
        if f.cursor.x + s.dx + s.dx <= c.width then Filler(boxes, p, depth, height)
        else if f.cursor.y + depth + s.dy <= c.length then Filler(boxes, p, 0, height)
        else Filler(boxes, p, 0, 0)
  }

  /** `for _ in range(count)`. */
  function FillCopies(c: Container, rule: Rule, f: Filler, spec: Spec, n: int): (r: Filler)
    ensures |f.boxes| <= |r.boxes| <= |f.boxes| + Copies(n)
    ensures r.boxes[..|f.boxes|] == f.boxes
    ensures forall i :: |f.boxes| <= i < |r.boxes| ==> r.boxes[i].tag == spec.tag && r.boxes[i].size == spec.size
    decreases n
  {
    if n <= 0 then f
    else
      var next := Step(c, rule, f, spec.size, spec.tag);
      var r := FillCopies(c, rule, next, spec, n - 1);
      assert r.boxes[..|f.boxes|] == r.boxes[..|next.boxes|][..|f.boxes|];
      assert forall i :: |f.boxes| <= i < |r.boxes| ==> r.boxes[i].tag == spec.tag && r.boxes[i].size == spec.size by {
        forall i | |f.boxes| <= i < |r.boxes|
          ensures r.boxes[i].tag == spec.tag && r.boxes[i].size == spec.size
        {
          if i < |next.boxes| {
            assert r.boxes[i] == r.boxes[..|next.boxes|][i] == next.boxes[i];
          }
        }
      }
      r
  }

  /** `for spec in sorted_box_specs`. */
  function FillAll(c: Container, rule: Rule, f: Filler, specs: seq<Spec>): (r: Filler)
    ensures |f.boxes| <= |r.boxes| <= |f.boxes| + TotalCopies(specs)
    ensures r.boxes[..|f.boxes|] == f.boxes
    decreases |specs|
  {
    if |specs| == 0 then f
    else
      var mid := FillAll(c, rule, f, specs[..|specs| - 1]);
      var r := FillCopies(c, rule, mid, specs[|specs| - 1], specs[|specs| - 1].count);
      assert r.boxes[..|f.boxes|] == mid.boxes[..|f.boxes|];
      r
  }

  /** The whole script on given specs and container, under either rule. */
  function Run(c: Container, rule: Rule, specs: seq<Spec>): Filler {
    FillAll(c, rule, Start, SortSpecs(specs))
  }

  // ---- Containment: both rules -------------------------------------------

  /** The cursor never goes negative and every loaded box lies inside. */
  predicate InsideState(c: Container, f: Filler) {
    && 0 <= f.cursor.x && 0 <= f.cursor.y && 0 <= f.cursor.z
    && 0 <= f.rowDepth && 0 <= f.layerHeight
    && AllInside(LoadedBoxes(f.boxes), c.width, c.length, c.height)
  }

  lemma StepInside(c: Container, rule: Rule, f: Filler, s: Size, tag: string)
    requires NonNegative(s) && InsideState(c, f)
    ensures InsideState(c, Step(c, rule, f, s, tag))
  {
    var r := Step(c, rule, f, s, tag);
    if FitsAt(c, f.cursor, s) {
      forall i | 0 <= i < |r.boxes| ensures Inside(LoadedBoxes(r.boxes)[i], c.width, c.length, c.height) {
        if i < |f.boxes| {
          assert r.boxes[i] == f.boxes[i];
          assert LoadedBoxes(f.boxes)[i] == BoxOfLoaded(f.boxes[i]);
        }
      }
    }
  }

  lemma {:induction false} FillCopiesInside(c: Container, rule: Rule, f: Filler, spec: Spec, n: int)
    requires NonNegative(spec.size) && InsideState(c, f)
    ensures InsideState(c, FillCopies(c, rule, f, spec, n))
    decreases n
  {
    if n > 0 {
      StepInside(c, rule, f, spec.size, spec.tag);
      FillCopiesInside(c, rule, Step(c, rule, f, spec.size, spec.tag), spec, n - 1);
    }
  }

  lemma {:induction false} FillAllInside(c: Container, rule: Rule, f: Filler, specs: seq<Spec>)
    requires forall i :: 0 <= i < |specs| ==> NonNegative(specs[i].size)
    requires InsideState(c, f)
    ensures InsideState(c, FillAll(c, rule, f, specs))
    decreases |specs|
  {
    if |specs| > 0 {
      FillAllInside(c, rule, f, specs[..|specs| - 1]);
      FillCopiesInside(c, rule, FillAll(c, rule, f, specs[..|specs| - 1]), specs[|specs| - 1], specs[|specs| - 1].count);
    }
  }

  lemma {:induction false} FillAllFromSpecs(c: Container, rule: Rule, f: Filler, seen: seq<Spec>, specs: seq<Spec>)
    requires FromSpecs(seen, f.boxes)
    ensures FromSpecs(seen + specs, FillAll(c, rule, f, specs).boxes)
    decreases |specs|
  {
    if |specs| > 0 {
      var mid := FillAll(c, rule, f, specs[..|specs| - 1]);
      FillAllFromSpecs(c, rule, f, seen, specs[..|specs| - 1]);
      var last := specs[|specs| - 1];
      var r := FillCopies(c, rule, mid, last, last.count);
      assert forall i :: |mid.boxes| <= i < |r.boxes| ==> r.boxes[i].size in Rotations(last.size) by {
        forall i | |mid.boxes| <= i < |r.boxes| ensures r.boxes[i].size in Rotations(last.size) {
          assert Rotations(last.size)[0] == last.size;
        }
      }
      SpecStep(mid.boxes, r.boxes, seen, specs);
    } else {
      assert seen + specs == seen;
    }
  }

  /** Under either rule every loaded box lies inside the container and is an
      unrotated copy of one of the specs, with its label. */
  lemma RunInside(c: Container, rule: Rule, specs: seq<Spec>)
    requires forall i :: 0 <= i < |specs| ==> NonNegative(specs[i].size)
    ensures var f := Run(c, rule, specs);
      AllInside(LoadedBoxes(f.boxes), c.width, c.length, c.height) && FromSpecs(specs, f.boxes)
  {
    var sorted := SortSpecs(specs);
    forall i | 0 <= i < |sorted| ensures NonNegative(sorted[i].size) {
      assert sorted[i] in multiset(specs);
    }
    FillAllInside(c, rule, Start, sorted);
    assert FromSpecs([], Start.boxes);
    FillAllFromSpecs(c, rule, Start, [], sorted);
    assert [] + sorted == sorted;
    FromSpecsReordered(sorted, specs, Run(c, rule, specs).boxes);
  }

  // ---- The rule as written overlaps ---------------------------------------

  /** A 2 x 3 x 1 container and, under one label, a 1 x 2 x 1 box followed by
      two unit boxes: the second unit box is put at (0, 1, 0), inside the
      first box. */
  lemma AsWrittenOverlaps()
    ensures var f := Run(Container(2, 3, 1), AsWritten,
                         [Spec(Size(1, 2, 1), 1, "A"), Spec(Size(1, 1, 1), 2, "A")]);
      |f.boxes| == 3 && f.boxes[2].position == Point(0, 1, 0)
      && Overlaps(BoxOfLoaded(f.boxes[0]), BoxOfLoaded(f.boxes[2]))
  {
    var c := Container(2, 3, 1);
    var a := Spec(Size(1, 2, 1), 1, "A");
    var u := Spec(Size(1, 1, 1), 2, "A");
    var specs := [a, u];
    SortAlreadySorted(specs);
    var f0 := Filler([Loaded(Point(0, 0, 0), a.size, "A")], Point(1, 0, 0), 0, 0);
    TallBoxFirst();
    UnitBoxesNext(f0);
    assert specs[..1] == [a];
    assert FillAll(c, AsWritten, Start, specs) == FillCopies(c, AsWritten, FillAll(c, AsWritten, Start, [a]), u, 2);
  }

  /** The 1 x 2 x 1 box goes to the origin, and the cursor moves right. */
  lemma TallBoxFirst()
    ensures FillAll(Container(2, 3, 1), AsWritten, Start, [Spec(Size(1, 2, 1), 1, "A")]) ==
            Filler([Loaded(Point(0, 0, 0), Size(1, 2, 1), "A")], Point(1, 0, 0), 0, 0)
  {
    var c := Container(2, 3, 1);
    var a := Spec(Size(1, 2, 1), 1, "A");
    assert [a][..0] == [];
    var f0 := Step(c, AsWritten, Start, a.size, a.tag);
    assert f0 == Filler([Loaded(Point(0, 0, 0), a.size, "A")], Point(1, 0, 0), 0, 0);
    assert FillCopies(c, AsWritten, Start, a, 1) == FillCopies(c, AsWritten, f0, a, 0);
  }

  /** The first unit box goes next to it; the row then advances by only the
      unit box's depth, so the second lands at (0, 1, 0). */
  lemma UnitBoxesNext(f0: Filler)
    requires f0 == Filler([Loaded(Point(0, 0, 0), Size(1, 2, 1), "A")], Point(1, 0, 0), 0, 0)
    ensures var f := FillCopies(Container(2, 3, 1), AsWritten, f0, Spec(Size(1, 1, 1), 2, "A"), 2);
      |f.boxes| == 3 && f.boxes[2].position == Point(0, 1, 0)
      && Overlaps(BoxOfLoaded(f.boxes[0]), BoxOfLoaded(f.boxes[2]))
  {
    var c := Container(2, 3, 1);
    var u := Spec(Size(1, 1, 1), 2, "A");
    var f1 := Step(c, AsWritten, f0, u.size, u.tag);
    assert f1.boxes[1].position == Point(1, 0, 0) && f1.cursor == Point(0, 1, 0);
    var f2 := Step(c, AsWritten, f1, u.size, u.tag);
    assert f2.boxes == f0.boxes + [Loaded(Point(1, 0, 0), u.size, "A"), Loaded(Point(0, 1, 0), u.size, "A")];
    assert FillCopies(c, AsWritten, f1, u, 1) == FillCopies(c, AsWritten, f2, u, 0) == f2;
    assert FillCopies(c, AsWritten, f0, u, 2) == f2;
  }

  /** Specs that all carry one label are left in their order by the sort. */
  lemma SortAlreadySorted(specs: seq<Spec>)
    requires |specs| == 2 && specs[0].tag == specs[1].tag
    ensures SortSpecs(specs) == specs
  {
    StrLessIrreflexive(specs[0].tag);
    assert specs[1..] == [specs[1]] && specs[1..][1..] == [];
  }

  // ---- The corrected rule keeps boxes disjoint ---------------------------

  /** Every loaded box lies below the current layer, or within the layer
      height and behind the current row, or within the row depth and left of
      the cursor. */
  predicate Behind(f: Filler, b: Loaded) {
    var top := b.position.z + b.size.dz;
    var back := b.position.y + b.size.dy;
    var right := b.position.x + b.size.dx;
    && top <= f.cursor.z + f.layerHeight
    && (top <= f.cursor.z || (back <= f.cursor.y + f.rowDepth && (back <= f.cursor.y || right <= f.cursor.x)))
  }

  predicate Layered(f: Filler) {
    && 0 <= f.rowDepth && 0 <= f.layerHeight
    && (forall i :: 0 <= i < |f.boxes| ==> Behind(f, f.boxes[i]))
    && PairwiseDisjoint(LoadedBoxes(f.boxes))
  }

  /** A box at the cursor does not overlap any box `Behind` the cursor. */
  lemma CursorBoxClear(f: Filler, b: Loaded, s: Size)
    requires Behind(f, b) && NonNegative(s)
    ensures !Overlaps(BoxOfLoaded(b), Box(f.cursor, s))
  {
  }

  lemma BehindAfterStep(c: Container, f: Filler, s: Size, tag: string, b: Loaded)
    requires NonNegative(s) && 0 <= f.rowDepth && 0 <= f.layerHeight
    requires Behind(f, b) || b == Loaded(f.cursor, s, tag)
    requires FitsAt(c, f.cursor, s)
    ensures Behind(Step(c, Corrected, f, s, tag), b)
  {
  }

  lemma StepLayered(c: Container, f: Filler, s: Size, tag: string)
    requires NonNegative(s) && Layered(f)
    ensures Layered(Step(c, Corrected, f, s, tag))
  {
    var r := Step(c, Corrected, f, s, tag);
    if FitsAt(c, f.cursor, s) {
      var nb := Loaded(f.cursor, s, tag);
      forall i | 0 <= i < |r.boxes| ensures Behind(r, r.boxes[i]) {
        if i < |f.boxes| {
          assert r.boxes[i] == f.boxes[i];
          BehindAfterStep(c, f, s, tag, f.boxes[i]);
        } else {
          BehindAfterStep(c, f, s, tag, nb);
        }
      }
      var bs := LoadedBoxes(r.boxes);
      forall i, j | 0 <= i < j < |bs| ensures !Overlaps(bs[i], bs[j]) {
        assert bs[i] == BoxOfLoaded(r.boxes[i]) && bs[j] == BoxOfLoaded(r.boxes[j]);
        if j < |f.boxes| {
          assert r.boxes[i] == f.boxes[i] && r.boxes[j] == f.boxes[j];
          assert LoadedBoxes(f.boxes)[i] == bs[i] && LoadedBoxes(f.boxes)[j] == bs[j];
        } else {
          assert r.boxes[i] == f.boxes[i] && r.boxes[j] == nb;
          CursorBoxClear(f, f.boxes[i], s);
        }
      }
    }
  }

  lemma {:induction false} FillCopiesLayered(c: Container, f: Filler, spec: Spec, n: int)
    requires NonNegative(spec.size) && Layered(f)
    ensures Layered(FillCopies(c, Corrected, f, spec, n))
    decreases n
  {
    if n > 0 {
      StepLayered(c, f, spec.size, spec.tag);
      FillCopiesLayered(c, Step(c, Corrected, f, spec.size, spec.tag), spec, n - 1);
    }
  }

  lemma {:induction false} FillAllLayered(c: Container, f: Filler, specs: seq<Spec>)
    requires forall i :: 0 <= i < |specs| ==> NonNegative(specs[i].size)
    requires Layered(f)
    ensures Layered(FillAll(c, Corrected, f, specs))
    decreases |specs|
  {
    if |specs| > 0 {
      FillAllLayered(c, f, specs[..|specs| - 1]);
      FillCopiesLayered(c, FillAll(c, Corrected, f, specs[..|specs| - 1]), specs[|specs| - 1], specs[|specs| - 1].count);
    }
  }

  /** Under the corrected rule no two loaded boxes overlap. */
  lemma CorrectedRunDisjoint(c: Container, specs: seq<Spec>)
    requires forall i :: 0 <= i < |specs| ==> NonNegative(specs[i].size)
    ensures PairwiseDisjoint(LoadedBoxes(Run(c, Corrected, specs).boxes))
  {
    var sorted := SortSpecs(specs);
    forall i | 0 <= i < |sorted| ensures NonNegative(sorted[i].size) {
      assert sorted[i] in multiset(specs);
    }
    FillAllLayered(c, Start, sorted);
  }
}
