/**
 * The first-fit loader of loading/loaded3.py. Fixed box specifications are
 * sorted by label, then by volume descending; each copy of a box takes the
 * first rotation, in rotation order, that fits somewhere, at the first
 * corner met when y, then x, then z run upwards.
 */
module FirstFitLoader {
  import opened Wrappers
  import opened Geometry
  import opened Items
  import opened Scan
  import opened Sorting
  import opened Seqs
  import opened OccupancyGrid
  import opened GridLoading

  /** `container_size` of the source. */
  const ContainerSize: Container := Container(6, 6, 6)

  /** `box_specs` of the source: (width, length, height), count, label. */
  const BoxSpecs: seq<Spec> := [
    Spec(Size(1, 1, 1), 20, "A"),
    Spec(Size(2, 1, 1), 10, "B"),
    Spec(Size(1, 2, 1), 10, "C"),
    Spec(Size(1, 1, 2), 10, "A"),
    Spec(Size(2, 2, 1), 10, "B"),
    Spec(Size(2, 1, 2), 10, "C")
  ]

  /** The sort key `(label, -volume)`. */
  function SortKey(s: Spec): (string, int) {
    (s.tag, -Volume(s.size))
  }

  predicate KeyLess(a: (string, int), b: (string, int)) {
    StrLess(a.0, b.0) || (a.0 == b.0 && a.1 < b.1)
  }

  lemma KeyLessIsStrictTotalOrder()
    ensures StrictTotalOrder(KeyLess)
  {
    StrLessIsStrictTotalOrder();
  }

  /** `sorted_box_specs`. */
  function SortSpecs(specs: seq<Spec>): (r: seq<Spec>)
    ensures multiset(r) == multiset(specs)
    ensures forall i, j :: 0 <= i < j < |r| ==>
      !StrLess(r[j].tag, r[i].tag) && (r[i].tag == r[j].tag ==> Volume(r[j].size) <= Volume(r[i].size))
    ensures forall k :: WithKey(r, SortKey, k) == WithKey(specs, SortKey, k)
  {
    KeyLessIsStrictTotalOrder();
    SortBySorted(specs, SortKey, KeyLess);
    forall k ensures WithKey(SortBy(specs, SortKey, KeyLess), SortKey, k) == WithKey(specs, SortKey, k) {
      SortByStable(specs, SortKey, KeyLess, k);
    }
    var r := SortBy(specs, SortKey, KeyLess);
    assert forall i, j :: 0 <= i < j < |r| ==> !KeyLess(SortKey(r[j]), SortKey(r[i]));
    r
  }

  /** `find_position_for_box`: the first corner where the box fits, scanning
      y, then x, then z upwards. */
  function FindPosition(c: Container, g: Grid, size: Size): (r: Option<Point>)
    ensures r.Some? ==> InScan(c, r.value) && Fits(c, g, r.value, size)
    ensures r.Some? ==> forall q :: InScan(c, q) && YxzBefore(q, r.value) ==> !Fits(c, g, q, size)
    ensures r.None? ==> forall q :: InScan(c, q) ==> !Fits(c, g, q, size)
  {
    var ok := (t: Triple) => Fits(c, g, Point(t.1, t.0, t.2), size);
    var t := FirstInGrid(0, c.length, 0, c.width, 0, c.height, ok);
    if t.None? then
      assert forall q :: InScan(c, q) ==> !Fits(c, g, q, size) by {
        forall q | InScan(c, q) ensures !Fits(c, g, q, size) {
          assert InRanges((q.y, q.x, q.z), 0, c.length, 0, c.width, 0, c.height) && !ok((q.y, q.x, q.z));
        }
      }
      None
    else
      var p := Point(t.value.1, t.value.0, t.value.2);
      assert ok(t.value);
      assert forall q :: InScan(c, q) && YxzBefore(q, p) ==> !Fits(c, g, q, size) by {
        forall q | InScan(c, q) && YxzBefore(q, p) ensures !Fits(c, g, q, size) {
          assert InRanges((q.y, q.x, q.z), 0, c.length, 0, c.width, 0, c.height) && !ok((q.y, q.x, q.z));
        }
      }
      Some(p)
  }

  function Positions(c: Container, g: Grid, os: seq<Size>): (r: seq<Option<Point>>)
    ensures |r| == |os|
    ensures forall j :: 0 <= j < |os| ==> r[j] == FindPosition(c, g, os[j])
  {
    Map(os, (o: Size) => FindPosition(c, g, o))
  }

  /** The rotation loop: the first rotation with a position, and that
      position. */
  function FirstRotation(c: Container, g: Grid, size: Size): (r: Option<(int, Point)>)
    ensures r.Some? ==> 0 <= r.value.0 < 6
    ensures r.Some? ==> InScan(c, r.value.1) && Fits(c, g, r.value.1, Rotations(size)[r.value.0])
  {
    var ps := Positions(c, g, Rotations(size));
    var k := FirstMatch(ps, (p: Option<Point>) => p.Some?);
    if k.None? then None else Some((k.value, ps[k.value].value))
  }

  /** Which placement the rotation loop takes: no earlier rotation fits
      anywhere, no earlier corner fits the chosen rotation, and nothing is
      taken exactly when no rotation fits anywhere. */
  lemma FirstRotationIsFirstFit(c: Container, g: Grid, size: Size)
    ensures var r := FirstRotation(c, g, size);
      var os := Rotations(size);
      r.Some? ==>
        && (forall j, q :: 0 <= j < r.value.0 && InScan(c, q) ==> !Fits(c, g, q, os[j]))
        && (forall q :: InScan(c, q) && YxzBefore(q, r.value.1) ==> !Fits(c, g, q, os[r.value.0]))
    ensures FirstRotation(c, g, size).None? <==>
      forall j, q :: 0 <= j < 6 && InScan(c, q) ==> !Fits(c, g, q, Rotations(size)[j])
  {
    var os := Rotations(size);
    var ps := Positions(c, g, os);
    var k := FirstMatch(ps, (p: Option<Point>) => p.Some?);
    if k.Some? {
      assert InScan(c, ps[k.value].value) && Fits(c, g, ps[k.value].value, os[k.value]);
    } else {
      forall j, q | 0 <= j < 6 && InScan(c, q) ensures !Fits(c, g, q, os[j]) {
        assert ps[j].None?;
      }
    }
  }

  /** One copy at the rotation loop's choice: the first rotation with a
      position, rotated as `rotate_size` says, at that position; `None`
      when no rotation fits anywhere (the "Could not place" report). */
  function PlaceCopy(c: Container, st: Load, spec: Spec): (r: Option<Load>)
    ensures r.None? <==> FirstRotation(c, st.grid, spec.size).None?
    ensures r.Some? ==> |r.value.boxes| == |st.boxes| + 1 && r.value.boxes[..|st.boxes|] == st.boxes
    ensures r.Some? ==> var choice := FirstRotation(c, st.grid, spec.size).value;
              && r.value.boxes[|st.boxes|] == Loaded(choice.1, Rotations(spec.size)[choice.0], spec.tag)
              && OfSpec(r.value.boxes[|st.boxes|], spec)
  {
    match FirstRotation(c, st.grid, spec.size)
    case None => None
    case Some((k, p)) => Some(AddBox(st, p, RotateSize(spec.size, k).value, spec.tag))
  }

  /** A placed copy is the first fit: no earlier rotation fits anywhere, the
      chosen rotation fits at its corner and at no earlier (y, x, z) corner;
      a copy is skipped exactly when no rotation fits anywhere. */
  lemma PlaceCopyIsFirstFit(c: Container, st: Load, spec: Spec)
    ensures var r := PlaceCopy(c, st, spec);
      var os := Rotations(spec.size);
      r.Some? ==> var b := r.value.boxes[|st.boxes|];
        exists k :: 0 <= k < 6 && b.size == os[k] && b.tag == spec.tag
          && InScan(c, b.position) && Fits(c, st.grid, b.position, b.size)
          && (forall j, q :: 0 <= j < k && InScan(c, q) ==> !Fits(c, st.grid, q, os[j]))
          && (forall q :: InScan(c, q) && YxzBefore(q, b.position) ==> !Fits(c, st.grid, q, b.size))
    ensures PlaceCopy(c, st, spec).None? <==>
      forall j, q :: 0 <= j < 6 && InScan(c, q) ==> !Fits(c, st.grid, q, Rotations(spec.size)[j])
  {
    FirstRotationIsFirstFit(c, st.grid, spec.size);
    var r := FirstRotation(c, st.grid, spec.size);
    if r.Some? {
      var k := r.value.0;
      assert PlaceCopy(c, st, spec).value.boxes[|st.boxes|].size == Rotations(spec.size)[k];
    }
  }

  /** The state after one copy: the copy's load, or unchanged when it fits
      nowhere. */
  function Attempt(c: Container, st: Load, spec: Spec): Load {
    match PlaceCopy(c, st, spec)
    case None => st
    case Some(next) => next
  }

  /** The loop over one spec's copies. A copy that fits nowhere is reported
      and the loop goes on with the next copy (there is no `break`). The
      first new box is the first copy's first fit; a box is added exactly
      when some copy is attempted and the first one fits; fewer than `n`
      new boxes means the final state has no room for another copy. */
  function LoadCopies(c: Container, st: Load, spec: Spec, n: int): (r: Load)
    ensures |st.boxes| <= |r.boxes| <= |st.boxes| + Copies(n)
    ensures r.boxes[..|st.boxes|] == st.boxes
    ensures forall i :: |st.boxes| <= i < |r.boxes| ==>
              OfSpec(r.boxes[i], spec)
    ensures |r.boxes| > |st.boxes| <==> n > 0 && PlaceCopy(c, st, spec).Some?
    ensures |r.boxes| > |st.boxes| ==>
              r.boxes[|st.boxes|] == PlaceCopy(c, st, spec).value.boxes[|st.boxes|]
    ensures |r.boxes| < |st.boxes| + Copies(n) ==> PlaceCopy(c, r, spec).None?
    decreases n
  {
    if n <= 0 then st
    else
      var next := Attempt(c, st, spec);
      var r := LoadCopies(c, next, spec, n - 1);
      assert r.boxes[..|st.boxes|] == r.boxes[..|next.boxes|][..|st.boxes|];
      assert forall i :: |st.boxes| <= i < |r.boxes| ==>
        OfSpec(r.boxes[i], spec) by {
        forall i | |st.boxes| <= i < |r.boxes|
          ensures OfSpec(r.boxes[i], spec)
        {
          if i < |next.boxes| {
            assert r.boxes[i] == r.boxes[..|next.boxes|][i] == next.boxes[i];
          }
        }
      }
      if PlaceCopy(c, st, spec).Some? then
        assert r.boxes[|st.boxes|] == r.boxes[..|next.boxes|][|st.boxes|];
        r
      else
        r
  }

  /** The same loop with a `break` at the first copy that fits nowhere, as
      loaded6.py writes it. */
  function LoadCopiesWithBreak(c: Container, st: Load, spec: Spec, n: int): Load
    decreases n
  {
    if n <= 0 then st
    else
      match PlaceCopy(c, st, spec)
      case None => st
      case Some(next) => LoadCopiesWithBreak(c, next, spec, n - 1)
  }

  /** A copy that fits nowhere leaves the grid unchanged, so every later copy
      fails too: carrying on and breaking off load the same boxes. */
  lemma {:induction false} NoBreakNeeded(c: Container, st: Load, spec: Spec, n: int)
    ensures LoadCopies(c, st, spec, n) == LoadCopiesWithBreak(c, st, spec, n)
    decreases n
  {
    if n > 0 {
      match PlaceCopy(c, st, spec)
      case None =>
        FailedCopiesChangeNothing(c, st, spec, n - 1);
      case Some(next) =>
        NoBreakNeeded(c, next, spec, n - 1);
    }
  }

  lemma {:induction false} FailedCopiesChangeNothing(c: Container, st: Load, spec: Spec, n: int)
    requires FirstRotation(c, st.grid, spec.size).None?
    ensures LoadCopies(c, st, spec, n) == st
    decreases n
  {
    if n > 0 {
      FailedCopiesChangeNothing(c, st, spec, n - 1);
    }
  }

  lemma {:induction false} LoadCopiesTracks(c: Container, st: Load, spec: Spec, n: int)
    requires Tracks(c, st) && Positive(spec.size)
    ensures Tracks(c, LoadCopies(c, st, spec, n))
    decreases n
  {
    if n > 0 {
      match FirstRotation(c, st.grid, spec.size)
      case None =>
        LoadCopiesTracks(c, st, spec, n - 1);
      case Some((k, p)) =>
        var size := RotateSize(spec.size, k).value;
        RotationsKeepSigns(spec.size);
        assert size in Rotations(spec.size);
        AddKeepsTracks(c, st, p, size, spec.tag);
        assert Attempt(c, st, spec) == AddBox(st, p, size, spec.tag);
        LoadCopiesTracks(c, AddBox(st, p, size, spec.tag), spec, n - 1);
    }
  }

  /** The copies loop for each spec's own `count`, as the outer loop runs it. */
  function CopiesLoop(c: Container): (Load, Spec) -> Load {
    (s: Load, spec: Spec) => LoadCopies(c, s, spec, spec.count)
  }

  /** The first-fit copies loop meets what the shared outer loop needs. */
  lemma CopiesLoopFacts(c: Container)
    ensures LoadsCopies(CopiesLoop(c)) && CopiesKeepTracks(c, CopiesLoop(c))
  {
    forall st: Load, spec: Spec | Tracks(c, st) && Positive(spec.size)
      ensures Tracks(c, CopiesLoop(c)(st, spec))
    {
      LoadCopiesTracks(c, st, spec, spec.count);
    }
  }

  /** The whole script on given specs: sort, load, and report the boxes and
      the empty-space percentage. */
  function Run(c: Container, specs: seq<Spec>): (r: (Load, real))
    requires ContainerVolume(c) > 0
  {
    CopiesLoopFacts(c);
    var st := LoadEach(Empty, SortSpecs(specs), CopiesLoop(c));
    (st, EmptyPercentage(c, st.occupied))
  }

  /** A run keeps the invariant, loads at most the total count, each box a
      rotation of a spec's box with its label, and reports an empty
      percentage in [0, 100]. */
  lemma RunFacts(c: Container, specs: seq<Spec>)
    requires 0 < c.width && 0 < c.length && 0 < c.height
    requires forall i :: 0 <= i < |specs| ==> Positive(specs[i].size)
    ensures ContainerVolume(c) > 0
    ensures var (st, pct) := Run(c, specs);
      && Tracks(c, st)
      && FromSpecs(specs, st.boxes)
      && st.occupied == SumVolumes(LoadedBoxes(st.boxes))
      && 0.0 <= pct <= 100.0
  {
    PositiveVolume(c);
    var sorted := SortSpecs(specs);
    CopiesLoopFacts(c);
    var st := LoadEach(Empty, sorted, CopiesLoop(c));
    forall i | 0 <= i < |sorted| ensures Positive(sorted[i].size) {
      assert sorted[i] in multiset(specs);
    }
    EmptyTracks(c);
    LoadEachTracks(c, Empty, sorted, CopiesLoop(c));
    assert FromSpecs([], Empty.boxes);
    LoadEachFromSpecs(Empty, [], sorted, CopiesLoop(c));
    assert [] + sorted == sorted;
    FromSpecsReordered(sorted, specs, st.boxes);
    OccupiedVolume(c, st);
    EmptyPercentageBounds(c, st.occupied);
  }

  /** The script itself: its fixed specs in its 6 x 6 x 6 container. */
  lemma ScriptRunFacts()
    ensures ContainerVolume(ContainerSize) == 216
    ensures var (st, pct) := Run(ContainerSize, BoxSpecs);
      Tracks(ContainerSize, st) && FromSpecs(BoxSpecs, st.boxes) && 0.0 <= pct <= 100.0
  {
    RunFacts(ContainerSize, BoxSpecs);
  }
}
