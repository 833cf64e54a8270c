/**
 * What the grid loaders under loading/ share: the six-way `rotate_size`,
 * the list of loaded boxes, the occupancy grid with its running
 * `occupied_volume`, and the closing empty-space percentage.
 */
module GridLoading {
  import opened Wrappers
  import opened Geometry
  import opened Items
  import opened OccupancyGrid
  import opened Seqs
  import opened Scan

  /** `rotate_size`: rotation 0..5 picks one of the six axis orders; any other
      value falls through the `elif` chain and the source returns `None`. */
  function RotateSize(s: Size, rotation: int): (r: Option<Size>)
    ensures r.Some? <==> 0 <= rotation < 6
    ensures r.Some? ==> r.value == Rotations(s)[rotation]
  {
    var dx, dy, dz := s.dx, s.dy, s.dz;
    if rotation == 0 then Some(Size(dx, dy, dz))
    else if rotation == 1 then Some(Size(dx, dz, dy))
    else if rotation == 2 then Some(Size(dy, dx, dz))
    else if rotation == 3 then Some(Size(dy, dz, dx))
    else if rotation == 4 then Some(Size(dz, dx, dy))
    else if rotation == 5 then Some(Size(dz, dy, dx))
    else None
  }

  /** Every rotated size reorders the extents and keeps the volume, and every
      reordering is reached by some rotation. */
  lemma RotateSizeIsPermutation(s: Size, t: Size)
    ensures (exists r :: 0 <= r < 6 && RotateSize(s, r) == Some(t)) <==> IsPermutation(t, s)
  {
    RotationsAreAllPermutations(s, t);
    if IsPermutation(t, s) {
      var k :| 0 <= k < 6 && Rotations(s)[k] == t;
      assert RotateSize(s, k) == Some(t);
    }
  }

  /** An entry of `boxes_to_load`: corner, rotated size and the label (loaded3.py) or location (loaded6.py) as `tag`. */
  datatype Loaded = Loaded(position: Point, size: Size, tag: string)

  function BoxOfLoaded(b: Loaded): Box {
    Box(b.position, b.size)
  }

  function LoadedBoxes(bs: seq<Loaded>): seq<Box> {
    Map(bs, BoxOfLoaded)
  }

  /** The loader's state: `boxes_to_load`, the `container` array and
      `occupied_volume`. */
  datatype Load = Load(boxes: seq<Loaded>, grid: Grid, occupied: int)

  const Empty: Load := Load([], {}, 0)

  /** `can_place`: the box stays under the far faces and all its cells are empty. */
  predicate Fits(c: Container, g: Grid, pos: Point, size: Size) {
    OccupancyGrid.CanPlace(g, c.width, c.length, c.height, Box(pos, size))
  }

  /** Record the box, mark its cells (`place_box`) and add its volume. The
      grid gains exactly the box's cells. */
  function AddBox(st: Load, pos: Point, size: Size, tag: string): (r: Load)
    ensures r.boxes == st.boxes + [Loaded(pos, size, tag)]
    ensures forall q :: q in r.grid <==> q in st.grid || InBox(q, Box(pos, size))
    ensures r.occupied == st.occupied + Volume(size)
  {
    Load(st.boxes + [Loaded(pos, size, tag)], Occupy(st.grid, Box(pos, size)), st.occupied + Volume(size))
  }

  /** The loader's invariant: the grid holds exactly the cells of the loaded
      boxes, which are positive, pairwise disjoint and inside the container,
      and `occupied_volume` counts the occupied cells. */
  predicate Tracks(c: Container, st: Load) {
    && Mirrors(st.grid, LoadedBoxes(st.boxes))
    && AllInside(LoadedBoxes(st.boxes), c.width, c.length, c.height)
    && st.occupied == |st.grid|
  }

  lemma EmptyTracks(c: Container)
    ensures Tracks(c, Empty)
  {
    assert LoadedBoxes([]) == [];
  }

  /** Loading a positive box at a scanned corner where it fits keeps the
      invariant. */
  lemma AddKeepsTracks(c: Container, st: Load, pos: Point, size: Size, tag: string)
    requires Tracks(c, st)
    requires Positive(size) && InScan(c, pos) && Fits(c, st.grid, pos, size)
    ensures Tracks(c, AddBox(st, pos, size, tag))
  {
    var b := Loaded(pos, size, tag);
    OccupyKeepsMirror(st.grid, LoadedBoxes(st.boxes), Box(pos, size));
    MapConcat(st.boxes, [b], BoxOfLoaded);
    assert LoadedBoxes(st.boxes + [b]) == LoadedBoxes(st.boxes) + [Box(pos, size)];
  }

  /** `occupied_volume` is the summed volume of the loaded boxes and never
      exceeds the container's volume. */
  lemma OccupiedVolume(c: Container, st: Load)
    requires 0 <= c.width && 0 <= c.length && 0 <= c.height
    requires Tracks(c, st)
    ensures st.occupied == SumVolumes(LoadedBoxes(st.boxes))
    ensures 0 <= st.occupied <= ContainerVolume(c)
  {
    OccupiedIsLoadedVolume(st.grid, LoadedBoxes(st.boxes));
    PackedVolumeBound(LoadedBoxes(st.boxes), c.width, c.length, c.height);
  }

  /** `(total_volume - occupied_volume) / total_volume * 100`. */
  function EmptyPercentage(c: Container, occupied: int): (r: real)
    requires ContainerVolume(c) > 0
    ensures r * ContainerVolume(c) as real == (ContainerVolume(c) - occupied) as real * 100.0
  {
    var v := ContainerVolume(c) as real;
    (ContainerVolume(c) - occupied) as real / v * 100.0
  }

  /** For a valid occupied volume the percentage lies in [0, 100]; an empty
      container gives 100 and a full one 0. */
  lemma EmptyPercentageBounds(c: Container, occupied: int)
    requires ContainerVolume(c) > 0
    requires 0 <= occupied <= ContainerVolume(c)
    ensures 0.0 <= EmptyPercentage(c, occupied) <= 100.0
    ensures occupied == 0 <==> EmptyPercentage(c, occupied) == 100.0
    ensures occupied == ContainerVolume(c) <==> EmptyPercentage(c, occupied) == 0.0
  {
    PercentBounds(EmptyPercentage(c, occupied), ContainerVolume(c) as real, occupied as real);
  }

  lemma PercentBounds(e: real, v: real, o: real)
    requires v > 0.0 && 0.0 <= o <= v
    requires e * v == (v - o) * 100.0
    ensures 0.0 <= e <= 100.0
    ensures o == 0.0 <==> e == 100.0
    ensures o == v <==> e == 0.0
  {
    if e == 100.0 {
      assert o * 100.0 == 0.0;
    }
    if e == 0.0 {
      assert (v - o) * 100.0 == 0.0;
    }
  }

  /** A box specification: size, how many copies (`range(count)`) and the
      label or location copied onto every box loaded from it. */
  datatype Spec = Spec(size: Size, count: int, tag: string)

  /** `range(count)` runs `max(count, 0)` times. */
  function Copies(count: int): nat {
    if count > 0 then count else 0
  }

  function TotalCopies(specs: seq<Spec>): nat
    decreases |specs|
  {
    if |specs| == 0 then 0 else TotalCopies(specs[..|specs| - 1]) + Copies(specs[|specs| - 1].count)
  }

  lemma {:induction false} OneCopyEach(specs: seq<Spec>)
    requires forall i :: 0 <= i < |specs| ==> specs[i].count == 1
    ensures TotalCopies(specs) == |specs|
    decreases |specs|
  {
    if |specs| > 0 {
      OneCopyEach(specs[..|specs| - 1]);
    }
  }

  /** Scan order of the loaders' corner loops: y, then x, then z. */
  predicate YxzBefore(a: Point, b: Point) {
    LexLess((a.y, a.x, a.z), (b.y, b.x, b.z))
  }

  /** The box was loaded from the spec: same tag, and its size is one of
      the spec size's rotations. */
  predicate OfSpec(b: Loaded, spec: Spec) {
    b.tag == spec.tag && b.size in Rotations(spec.size)
  }

  /** The box comes from one of the specs. */
  predicate ComesFromSpec(b: Loaded, specs: seq<Spec>) {
    exists j :: 0 <= j < |specs| && OfSpec(b, specs[j])
  }

  predicate FromSpecs(specs: seq<Spec>, boxes: seq<Loaded>) {
    forall i :: 0 <= i < |boxes| ==> ComesFromSpec(boxes[i], specs)
  }

  /** Loading copies of the last spec after boxes that came from the
      earlier specs keeps every box traceable to a spec. */
  lemma SpecStep(prev: seq<Loaded>, r: seq<Loaded>, seen: seq<Spec>, specs: seq<Spec>)
    requires |specs| > 0
    requires FromSpecs(seen + specs[..|specs| - 1], prev)
    requires |prev| <= |r| && r[..|prev|] == prev
    requires forall i :: |prev| <= i < |r| ==> OfSpec(r[i], specs[|specs| - 1])
    ensures FromSpecs(seen + specs, r)
  {
    var before := seen + specs[..|specs| - 1];
    var all := seen + specs;
    assert all == before + [specs[|specs| - 1]];
    forall i | 0 <= i < |r| ensures ComesFromSpec(r[i], all) {
      if i < |prev| {
        assert r[i] == prev[i];
        var j :| 0 <= j < |before| && OfSpec(prev[i], before[j]);
        assert all[j] == before[j];
      } else {
        assert all[|all| - 1] == specs[|specs| - 1];
      }
    }
  }

  /** What the loaders' loop over one spec's copies promises: it keeps the
      boxes already loaded and appends at most `count` boxes, each loaded
      from the spec. */
  ghost predicate LoadsCopies(copies: (Load, Spec) -> Load) {
    forall st: Load, spec: Spec ::
      && |st.boxes| <= |copies(st, spec).boxes| <= |st.boxes| + Copies(spec.count)
      && copies(st, spec).boxes[..|st.boxes|] == st.boxes
      && (forall i :: |st.boxes| <= i < |copies(st, spec).boxes| ==> OfSpec(copies(st, spec).boxes[i], spec))
  }

  /** The copies loop keeps the loader's invariant for a positive spec size. */
  ghost predicate CopiesKeepTracks(c: Container, copies: (Load, Spec) -> Load) {
    forall st: Load, spec: Spec :: Tracks(c, st) && Positive(spec.size) ==> Tracks(c, copies(st, spec))
  }

  /** The loaders' outer loop `for spec in sorted_box_specs`, with the loop
      over one spec's copies as `copies`. */
  function LoadEach(st: Load, specs: seq<Spec>, copies: (Load, Spec) -> Load): (r: Load)
    requires LoadsCopies(copies)
    ensures |st.boxes| <= |r.boxes| <= |st.boxes| + TotalCopies(specs)
    ensures r.boxes[..|st.boxes|] == st.boxes
    decreases |specs|
  {
    if |specs| == 0 then st
    else
      var mid := LoadEach(st, specs[..|specs| - 1], copies);
      var r := copies(mid, specs[|specs| - 1]);
      assert r.boxes[..|st.boxes|] == mid.boxes[..|st.boxes|];
      r
  }

  lemma {:induction false} LoadEachTracks(c: Container, st: Load, specs: seq<Spec>, copies: (Load, Spec) -> Load)
    requires LoadsCopies(copies) && CopiesKeepTracks(c, copies)
    requires Tracks(c, st)
    requires forall i :: 0 <= i < |specs| ==> Positive(specs[i].size)
    ensures Tracks(c, LoadEach(st, specs, copies))
    decreases |specs|
  {
    if |specs| > 0 {
      LoadEachTracks(c, st, specs[..|specs| - 1], copies);
    }
  }

  /** Every box the loop loads comes from one of the specs. */
  lemma {:induction false} LoadEachFromSpecs(st: Load, seen: seq<Spec>, specs: seq<Spec>, copies: (Load, Spec) -> Load)
    requires LoadsCopies(copies)
    requires FromSpecs(seen, st.boxes)
    ensures FromSpecs(seen + specs, LoadEach(st, specs, copies).boxes)
    decreases |specs|
  {
    if |specs| > 0 {
      var mid := LoadEach(st, specs[..|specs| - 1], copies);
      LoadEachFromSpecs(st, seen, specs[..|specs| - 1], copies);
      SpecStep(mid.boxes, copies(mid, specs[|specs| - 1]).boxes, seen, specs);
    } else {
      assert seen + specs == seen;
    }
  }

  lemma FromSpecsReordered(a: seq<Spec>, b: seq<Spec>, boxes: seq<Loaded>)
    requires multiset(a) == multiset(b)
    requires FromSpecs(a, boxes)
    ensures FromSpecs(b, boxes)
  {
    forall i | 0 <= i < |boxes| ensures ComesFromSpec(boxes[i], b) {
      var j :| 0 <= j < |a| && OfSpec(boxes[i], a[j]);
      assert a[j] in multiset(b);
      var k :| 0 <= k < |b| && b[k] == a[j];
    }
  }

  lemma PositiveVolume(c: Container)
    requires 0 < c.width && 0 < c.length && 0 < c.height
    ensures ContainerVolume(c) > 0
  {
    assert c.width * c.length > 0;
  }
}
