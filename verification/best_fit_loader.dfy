/**
 * The best-fit loader of loading/loaded6.py. Box specifications are sorted
 * by location, then by volume and weight descending; each box goes to the
 * feasible (rotation, corner) that touches the most occupied faces, ties
 * going to the first one met when rotation, then y, then x, then z run
 * upwards.
 */
module BestFitLoader {
  import opened Wrappers
  import opened Geometry
  import opened Items
  import opened Scan
  import opened Sorting
  import opened Seqs
  import opened OccupancyGrid
  import opened GridLoading

  /** `container_size` of the source. */
  const ContainerSize: Container := Container(170, 275, 160)

  /** A record of boxes.json. */
  datatype BoxRecord = BoxRecord(width: int, length: int, height: int, weight: real, location: string)

  /** An entry of `expanded_box_specs`: the spec (count 1) and the weight. */
  datatype WeightedSpec = WeightedSpec(spec: Spec, weight: real)

  function RecordSpec(b: BoxRecord): Spec {
    Spec(Size(b.width, b.length, b.height), 1, b.location)
  }

  /** `expanded_box_specs`: one spec of count 1 per record, in record order. */
  function ExpandSpecs(records: seq<BoxRecord>): (r: seq<WeightedSpec>)
    ensures |r| == |records|
    ensures forall i :: 0 <= i < |r| ==> r[i].spec == RecordSpec(records[i]) && r[i].weight == records[i].weight
  {
    Map(records, (b: BoxRecord) => WeightedSpec(RecordSpec(b), b.weight))
  }

  type SpecKey = (string, int, real)

  /** The sort key `(location, -volume, -weight)`. */
  function SortKey(s: WeightedSpec): SpecKey {
    (s.spec.tag, -Volume(s.spec.size), -s.weight)
  }

  /** Python's `<` on such tuples: lexicographic. */
  predicate KeyLess(a: SpecKey, b: SpecKey) {
    StrLess(a.0, b.0) || (a.0 == b.0 && (a.1 < b.1 || (a.1 == b.1 && a.2 < b.2)))
  }

  lemma KeyLessIsStrictTotalOrder()
    ensures StrictTotalOrder(KeyLess)
  {
    StrLessIsStrictTotalOrder();
  }

  /** `sorted_box_specs`. */
  function SortSpecs(specs: seq<WeightedSpec>): (r: seq<WeightedSpec>)
    ensures multiset(r) == multiset(specs)
    ensures SortedBy(r, SortKey, KeyLess)
    ensures forall k :: WithKey(r, SortKey, k) == WithKey(specs, SortKey, k)
  {
    KeyLessIsStrictTotalOrder();
    SortBySorted(specs, SortKey, KeyLess);
    forall k ensures WithKey(SortBy(specs, SortKey, KeyLess), SortKey, k) == WithKey(specs, SortKey, k) {
      SortByStable(specs, SortKey, KeyLess, k);
    }
    SortBy(specs, SortKey, KeyLess)
  }

  /** In the sorted specs locations never decrease, and within a location the
      volume never increases (and at equal volume the weight never increases). */
  lemma SortSpecsOrder(specs: seq<WeightedSpec>)
    ensures var r := SortSpecs(specs);
      forall i, j :: 0 <= i < j < |r| ==>
        && !StrLess(r[j].spec.tag, r[i].spec.tag)
        && (r[i].spec.tag == r[j].spec.tag ==> Volume(r[j].spec.size) <= Volume(r[i].spec.size))
        && (r[i].spec.tag == r[j].spec.tag && Volume(r[i].spec.size) == Volume(r[j].spec.size) ==> r[j].weight <= r[i].weight)
  {
    var r := SortSpecs(specs);
    forall i, j | 0 <= i < j < |r|
      ensures !StrLess(r[j].spec.tag, r[i].spec.tag)
    {
      assert !KeyLess(SortKey(r[j]), SortKey(r[i]));
    }
  }

  /** One face slab of `count_adjacent_faces`: counted when its guard holds
      and every cell of it is occupied. */
  predicate Covered(g: Grid, guard: bool, slab: Box) {
    guard && Cells(slab) <= g
  }

  /** `count_adjacent_faces`: for each of the six faces of the box whose
      one-cell-thick neighbouring slab is inside the container and fully
      occupied, the area of that face. */
  function AdjacentFaces(c: Container, g: Grid, p: Point, s: Size): int {
    var x, y, z := p.x, p.y, p.z;
    var dx, dy, dz := s.dx, s.dy, s.dz;
    (if Covered(g, x > 0, Box(Point(x - 1, y, z), Size(1, dy, dz))) then dy * dz else 0)
    + (if Covered(g, x + dx < c.width, Box(Point(x + dx, y, z), Size(1, dy, dz))) then dy * dz else 0)
    + (if Covered(g, y > 0, Box(Point(x, y - 1, z), Size(dx, 1, dz))) then dx * dz else 0)
    + (if Covered(g, y + dy < c.length, Box(Point(x, y + dy, z), Size(dx, 1, dz))) then dx * dz else 0)
    + (if Covered(g, z > 0, Box(Point(x, y, z - 1), Size(dx, dy, 1))) then dx * dy else 0)
    + (if Covered(g, z + dz < c.height, Box(Point(x, y, z + dz), Size(dx, dy, 1))) then dx * dy else 0)
  }

  /** The score is between none and all of the box's surface. */
  lemma AdjacentFacesBounds(c: Container, g: Grid, p: Point, s: Size)
    requires NonNegative(s)
    ensures 0 <= AdjacentFaces(c, g, p, s) <= 2 * (s.dy * s.dz + s.dx * s.dz + s.dx * s.dy)
  {
    assert s.dy * s.dz >= 0 && s.dx * s.dz >= 0 && s.dx * s.dy >= 0;
  }

  /** Against an empty grid a positive box touches no occupied face. */
  lemma AdjacentFacesEmpty(c: Container, p: Point, s: Size)
    requires Positive(s)
    ensures AdjacentFaces(c, {}, p, s) == 0
  {
    var x, y, z := p.x, p.y, p.z;
    var slabs := [Box(Point(x - 1, y, z), Size(1, s.dy, s.dz)), Box(Point(x + s.dx, y, z), Size(1, s.dy, s.dz)),
                  Box(Point(x, y - 1, z), Size(s.dx, 1, s.dz)), Box(Point(x, y + s.dy, z), Size(s.dx, 1, s.dz)),
                  Box(Point(x, y, z - 1), Size(s.dx, s.dy, 1)), Box(Point(x, y, z + s.dz), Size(s.dx, s.dy, 1))];
    forall i | 0 <= i < 6 ensures !(Cells(slabs[i]) <= {}) {
      CellsMembership(slabs[i]);
      assert slabs[i].pos in Cells(slabs[i]);
    }
    assert !Covered({}, x > 0, slabs[0]) && !Covered({}, x + s.dx < c.width, slabs[1]);
    assert !Covered({}, y > 0, slabs[2]) && !Covered({}, y + s.dy < c.length, slabs[3]);
    assert !Covered({}, z > 0, slabs[4]) && !Covered({}, z + s.dz < c.height, slabs[5]);
  }

  /** Occupying more cells never lowers the score. */
  lemma AdjacentFacesMonotone(c: Container, g: Grid, h: Grid, p: Point, s: Size)
    requires g <= h && NonNegative(s)
    ensures AdjacentFaces(c, g, p, s) <= AdjacentFaces(c, h, p, s)
  {
    assert s.dy * s.dz >= 0 && s.dx * s.dz >= 0 && s.dx * s.dy >= 0;
  }

  /** The best corner for one rotated size. */
  function BestSpot(c: Container, g: Grid, o: Size): (r: Option<Point>)
    ensures r.Some? ==> InScan(c, r.value) && Fits(c, g, r.value, o) && AdjacentFaces(c, g, r.value, o) > -1
    ensures r.Some? ==> forall q :: InScan(c, q) && Fits(c, g, q, o) ==> AdjacentFaces(c, g, q, o) <= AdjacentFaces(c, g, r.value, o)
    ensures r.Some? ==> forall q :: InScan(c, q) && Fits(c, g, q, o) && YxzBefore(q, r.value) ==>
              AdjacentFaces(c, g, q, o) < AdjacentFaces(c, g, r.value, o)
    ensures r.None? ==> forall q :: InScan(c, q) && Fits(c, g, q, o) ==> AdjacentFaces(c, g, q, o) <= -1
  {
    var t := BestInGrid(0, c.length, 0, c.width, 0, c.height, SpotOk(c, g, o), SpotScore(c, g, o));
    if t.None? then
      BestSpotNone(c, g, o);
      None
    else
      BestSpotSome(c, g, o);
      Some(Point(t.value.1, t.value.0, t.value.2))
  }

  /** The grid scan behind `BestSpot`: triples are (y, x, z), the loop order. */
  function SpotOk(c: Container, g: Grid, o: Size): Triple -> bool {
    (t: Triple) => Fits(c, g, Point(t.1, t.0, t.2), o)
  }

  function SpotScore(c: Container, g: Grid, o: Size): Triple -> int {
    (t: Triple) => AdjacentFaces(c, g, Point(t.1, t.0, t.2), o)
  }

  lemma BestSpotNone(c: Container, g: Grid, o: Size)
    requires BestInGrid(0, c.length, 0, c.width, 0, c.height, SpotOk(c, g, o), SpotScore(c, g, o)).None?
    ensures forall q :: InScan(c, q) && Fits(c, g, q, o) ==> AdjacentFaces(c, g, q, o) <= -1
  {
    forall q | InScan(c, q) && Fits(c, g, q, o) ensures AdjacentFaces(c, g, q, o) <= -1 {
      assert InRanges((q.y, q.x, q.z), 0, c.length, 0, c.width, 0, c.height) && SpotOk(c, g, o)((q.y, q.x, q.z));
      assert SpotScore(c, g, o)((q.y, q.x, q.z)) == AdjacentFaces(c, g, q, o);
    }
  }

  lemma BestSpotSome(c: Container, g: Grid, o: Size)
    requires BestInGrid(0, c.length, 0, c.width, 0, c.height, SpotOk(c, g, o), SpotScore(c, g, o)).Some?
    ensures var t := BestInGrid(0, c.length, 0, c.width, 0, c.height, SpotOk(c, g, o), SpotScore(c, g, o)).value;
      var p := Point(t.1, t.0, t.2);
      && InScan(c, p) && Fits(c, g, p, o) && AdjacentFaces(c, g, p, o) > -1
      && (forall q :: InScan(c, q) && Fits(c, g, q, o) ==> AdjacentFaces(c, g, q, o) <= AdjacentFaces(c, g, p, o))
      && (forall q :: InScan(c, q) && Fits(c, g, q, o) && YxzBefore(q, p) ==>
            AdjacentFaces(c, g, q, o) < AdjacentFaces(c, g, p, o))
  {
    var t := BestInGrid(0, c.length, 0, c.width, 0, c.height, SpotOk(c, g, o), SpotScore(c, g, o)).value;
    var p := Point(t.1, t.0, t.2);
    assert SpotOk(c, g, o)(t) && SpotScore(c, g, o)(t) == AdjacentFaces(c, g, p, o);
    forall q | InScan(c, q) && Fits(c, g, q, o) ensures AdjacentFaces(c, g, q, o) <= AdjacentFaces(c, g, p, o) {
      assert InRanges((q.y, q.x, q.z), 0, c.length, 0, c.width, 0, c.height) && SpotOk(c, g, o)((q.y, q.x, q.z));
      assert SpotScore(c, g, o)((q.y, q.x, q.z)) == AdjacentFaces(c, g, q, o);
    }
    forall q | InScan(c, q) && Fits(c, g, q, o) && YxzBefore(q, p)
      ensures AdjacentFaces(c, g, q, o) < AdjacentFaces(c, g, p, o)
    {
      assert InRanges((q.y, q.x, q.z), 0, c.length, 0, c.width, 0, c.height) && SpotOk(c, g, o)((q.y, q.x, q.z));
      assert SpotScore(c, g, o)((q.y, q.x, q.z)) == AdjacentFaces(c, g, q, o);
    }
  }

  /** Each rotation's best corner with its score. */
  function Candidates(c: Container, g: Grid, size: Size): (r: seq<Option<(Point, int)>>)
    ensures |r| == 6
    ensures forall k :: 0 <= k < 6 ==>
      r[k] == (match BestSpot(c, g, Rotations(size)[k])
               case None => None
               case Some(p) => Some((p, AdjacentFaces(c, g, p, Rotations(size)[k]))))
  {
    var os := Rotations(size);
    seq(6, k requires 0 <= k < 6 =>
      match BestSpot(c, g, os[k])
      case None => None
      case Some(p) => Some((p, AdjacentFaces(c, g, p, os[k]))))
  }

  function CandidateScore(x: Option<(Point, int)>): int {
    if x.Some? then x.value.1 else -1
  }

  /** `find_best_fit`: the rotation index and corner of the best placement,
      or `None` when the scan keeps nothing. */
  function FindBestFit(c: Container, g: Grid, size: Size): (r: Option<(int, Point)>)
    ensures r.Some? ==> 0 <= r.value.0 < 6
    ensures r.Some? ==> InScan(c, r.value.1) && Fits(c, g, r.value.1, Rotations(size)[r.value.0])
  {
    var cands := Candidates(c, g, size);
    var k := ArgMax(cands, (x: Option<(Point, int)>) => x.Some?, CandidateScore);
    if k.None? then None
    else Some((k.value, cands[k.value].value.0))
  }

  /** The (rotation, corner) pair the scan visits first. */
  predicate ScanBefore(j: int, q: Point, k: int, p: Point) {
    j < k || (j == k && YxzBefore(q, p))
  }

  /** Rotation `j` of `size` fits at scanned corner `q`. */
  predicate Feasible(c: Container, g: Grid, size: Size, j: int, q: Point) {
    0 <= j < 6 && InScan(c, q) && Fits(c, g, q, Rotations(size)[j])
  }

  /** The score `find_best_fit` compares for rotation `j` at corner `q`. */
  function Score(c: Container, g: Grid, size: Size, j: int, q: Point): int {
    if 0 <= j < 6 then AdjacentFaces(c, g, q, Rotations(size)[j]) else 0
  }

  /** What `find_best_fit` returns: among all feasible (rotation, corner)
      pairs a pair with the most adjacent faces, and every pair the scan
      meets earlier scores strictly less. It returns nothing exactly when
      no rotation fits anywhere. */
  lemma FindBestFitIsBest(c: Container, g: Grid, size: Size)
    requires NonNegative(size)
    ensures var r := FindBestFit(c, g, size);
      r.Some? ==>
        && (forall j, q :: Feasible(c, g, size, j, q) ==> Score(c, g, size, j, q) <= Score(c, g, size, r.value.0, r.value.1))
        && (forall j, q :: Feasible(c, g, size, j, q) && ScanBefore(j, q, r.value.0, r.value.1) ==>
              Score(c, g, size, j, q) < Score(c, g, size, r.value.0, r.value.1))
    ensures FindBestFit(c, g, size).None? <==> forall j, q :: !Feasible(c, g, size, j, q)
  {
    var cands := Candidates(c, g, size);
    var ok := (j: int, q: Point) => Feasible(c, g, size, j, q);
    var score := (j: int, q: Point) => Score(c, g, size, j, q);
    CandidatesFacts(c, g, size);
    CombineRotations(cands, ok, score);
  }

  /** Each rotation's candidate is feasible with its score, and beats every
      feasible corner of that rotation (strictly when it comes earlier). */
  lemma CandidatesFacts(c: Container, g: Grid, size: Size)
    requires NonNegative(size)
    ensures var cands := Candidates(c, g, size);
      && (forall j :: 0 <= j < 6 && cands[j].Some? ==>
            Feasible(c, g, size, j, cands[j].value.0) && cands[j].value.1 == Score(c, g, size, j, cands[j].value.0))
      && (forall j, q :: 0 <= j < 6 && Feasible(c, g, size, j, q) ==>
            (cands[j].Some? && Score(c, g, size, j, q) <= cands[j].value.1
             && (YxzBefore(q, cands[j].value.0) ==> Score(c, g, size, j, q) < cands[j].value.1)))
      && (forall j :: 0 <= j < 6 && cands[j].Some? ==> cands[j].value.1 >= 0)
  {
    var os := Rotations(size);
    var cands := Candidates(c, g, size);
    RotationsKeepSigns(size);
    forall j | 0 <= j < 6
      ensures cands[j].Some? ==> cands[j].value.1 >= 0
      ensures forall q :: Feasible(c, g, size, j, q) ==>
                (cands[j].Some? && Score(c, g, size, j, q) <= cands[j].value.1
                 && (YxzBefore(q, cands[j].value.0) ==> Score(c, g, size, j, q) < cands[j].value.1))
    {
      assert os[j] in os;
      BestSpotFacts(c, g, os[j]);
      assert SpotIsBest(c, g, os[j], cands[j]);
      if cands[j].Some? {
        AdjacentFacesBounds(c, g, cands[j].value.0, os[j]);
      }
    }
  }

  /** The comparison across rotations: the first rotation whose candidate
      scores highest, given each rotation's candidate beats that rotation's
      feasible corners. */
  lemma CombineRotations(cands: seq<Option<(Point, int)>>, ok: (int, Point) -> bool, score: (int, Point) -> int)
    requires |cands| == 6
    requires forall j :: 0 <= j < 6 && cands[j].Some? ==> ok(j, cands[j].value.0) && cands[j].value.1 == score(j, cands[j].value.0)
    requires forall j, q :: 0 <= j < 6 && ok(j, q) ==>
               (cands[j].Some? && score(j, q) <= cands[j].value.1
                && (YxzBefore(q, cands[j].value.0) ==> score(j, q) < cands[j].value.1))
    requires forall j :: 0 <= j < 6 && cands[j].Some? ==> cands[j].value.1 >= 0
    ensures var k := ArgMax(cands, (x: Option<(Point, int)>) => x.Some?, CandidateScore);
      && (k.None? <==> forall j, q :: 0 <= j < 6 ==> !ok(j, q))
      && (k.Some? ==> forall j, q :: 0 <= j < 6 && ok(j, q) ==>
            && score(j, q) <= cands[k.value].value.1
            && (ScanBefore(j, q, k.value, cands[k.value].value.0) ==> score(j, q) < cands[k.value].value.1))
  {
    var k := ArgMax(cands, (x: Option<(Point, int)>) => x.Some?, CandidateScore);
    if k.Some? {
      assert ok(k.value, cands[k.value].value.0);
    }
  }

  /** Every feasible corner of rotation `o` has a candidate that scores at
      least as much, and strictly more when the corner comes earlier. */
  ghost predicate SpotIsBest(c: Container, g: Grid, o: Size, cand: Option<(Point, int)>) {
    forall q :: InScan(c, q) && Fits(c, g, q, o) ==>
      && cand.Some?
      && AdjacentFaces(c, g, q, o) <= cand.value.1
      && (YxzBefore(q, cand.value.0) ==> AdjacentFaces(c, g, q, o) < cand.value.1)
  }

  lemma BestSpotFacts(c: Container, g: Grid, o: Size)
    requires NonNegative(o)
    ensures SpotIsBest(c, g, o, match BestSpot(c, g, o)
                                 case None => None
                                 case Some(p) => Some((p, AdjacentFaces(c, g, p, o))))
  {
    forall q | InScan(c, q) && Fits(c, g, q, o) ensures BestSpot(c, g, o).Some? {
      AdjacentFacesBounds(c, g, q, o);
    }
  }


  /** One copy at its best fit, rotated as the fit says; `None` when it fits
      nowhere. */
  function PlaceCopy(c: Container, st: Load, spec: Spec): (r: Option<Load>)
    ensures r.Some? ==> |r.value.boxes| == |st.boxes| + 1 && r.value.boxes[..|st.boxes|] == st.boxes
    ensures r.Some? ==> var b := r.value.boxes[|st.boxes|];
              OfSpec(b, spec)
    ensures r.None? <==> FindBestFit(c, st.grid, spec.size).None?
    ensures r.Some? ==> var best := FindBestFit(c, st.grid, spec.size).value;
              && r.value.boxes[|st.boxes|] == Loaded(best.1, Rotations(spec.size)[best.0], spec.tag)
              && Fits(c, st.grid, best.1, Rotations(spec.size)[best.0])
  {
    match FindBestFit(c, st.grid, spec.size)
    case None => None
    case Some((k, p)) =>
      var size := RotateSize(spec.size, k).value;
      Some(AddBox(st, p, size, spec.tag))
  }

  /** Place up to `n` copies one after the other; the first copy `place`
      finds no room for ends the loop (`break`). */
  function Repeat(st: Load, n: int, place: Load -> Option<Load>): Load
    decreases n
  {
    if n <= 0 then st
    else
      match place(st)
      case None => st
      case Some(next) => Repeat(next, n - 1, place)
  }

  /** A placement step that appends one box loaded from `spec`. */
  ghost predicate AppendsFrom(place: Load -> Option<Load>, spec: Spec) {
    forall s :: place(s).Some? ==>
      |place(s).value.boxes| == |s.boxes| + 1 && place(s).value.boxes[..|s.boxes|] == s.boxes &&
      OfSpec(place(s).value.boxes[|s.boxes|], spec)
  }

  /** Repeating such a step adds at most `n` boxes after the existing ones,
      all loaded from the spec. */
  lemma {:induction false} RepeatAppends(st: Load, n: int, place: Load -> Option<Load>, spec: Spec)
    requires AppendsFrom(place, spec)
    ensures var r := Repeat(st, n, place);
      && |st.boxes| <= |r.boxes| <= |st.boxes| + Copies(n)
      && r.boxes[..|st.boxes|] == st.boxes
      && forall i :: |st.boxes| <= i < |r.boxes| ==> OfSpec(r.boxes[i], spec)
    decreases n
  {
    if n > 0 && place(st).Some? {
      var next := place(st).value;
      RepeatAppends(next, n - 1, place, spec);
      var r := Repeat(next, n - 1, place);
      assert r.boxes[..|st.boxes|] == r.boxes[..|next.boxes|][..|st.boxes|];
      forall i | |st.boxes| <= i < |r.boxes| ensures OfSpec(r.boxes[i], spec) {
        if i == |st.boxes| {
          assert r.boxes[i] == r.boxes[..|next.boxes|][i] == next.boxes[i];
        }
      }
    }
  }

  /** Repeating stops early only where the step fails: fewer than `n` new
      boxes means the step finds no room in the final state. */
  lemma {:induction false} RepeatStops(st: Load, n: int, place: Load -> Option<Load>, spec: Spec)
    requires AppendsFrom(place, spec)
    ensures var r := Repeat(st, n, place);
      |r.boxes| < |st.boxes| + Copies(n) ==> place(r).None?
    decreases n
  {
    if n > 0 && place(st).Some? {
      RepeatStops(place(st).value, n - 1, place, spec);
    }
  }

  /** Repeating a step that keeps the invariant keeps it. */
  lemma {:induction false} RepeatTracks(c: Container, st: Load, n: int, place: Load -> Option<Load>)
    requires Tracks(c, st)
    requires forall s :: Tracks(c, s) && place(s).Some? ==> Tracks(c, place(s).value)
    ensures Tracks(c, Repeat(st, n, place))
    decreases n
  {
    if n > 0 && place(st).Some? {
      RepeatTracks(c, place(st).value, n - 1, place);
    }
  }

  function PlaceCopyOf(c: Container, spec: Spec): Load -> Option<Load> {
    (s: Load) => PlaceCopy(c, s, spec)
  }

  /** The inner loop over one spec's copies: each copy goes to the best fit;
      the first copy that fits nowhere ends the loop (`break`). */
  function LoadCopies(c: Container, st: Load, spec: Spec, n: int): (r: Load)
    ensures |st.boxes| <= |r.boxes| <= |st.boxes| + Copies(n)
    ensures r.boxes[..|st.boxes|] == st.boxes
    ensures forall i :: |st.boxes| <= i < |r.boxes| ==> OfSpec(r.boxes[i], spec)
    ensures |r.boxes| < |st.boxes| + Copies(n) ==> PlaceCopy(c, r, spec).None?
  {
    RepeatAppends(st, n, PlaceCopyOf(c, spec), spec);
    RepeatStops(st, n, PlaceCopyOf(c, spec), spec);
    Repeat(st, n, PlaceCopyOf(c, spec))
  }

  /** Every copy loaded lands in a feasible place and keeps the invariant. */
  lemma LoadCopiesTracks(c: Container, st: Load, spec: Spec, n: int)
    requires Tracks(c, st) && Positive(spec.size)
    ensures Tracks(c, LoadCopies(c, st, spec, n))
  {
    var place := PlaceCopyOf(c, spec);
    forall s | Tracks(c, s) && place(s).Some? ensures Tracks(c, place(s).value) {
      PlaceCopyTracks(c, s, spec);
    }
    RepeatTracks(c, st, n, place);
  }

  /** Loading one copy at the best fit keeps the invariant. */
  lemma PlaceCopyTracks(c: Container, st: Load, spec: Spec)
    requires Tracks(c, st) && Positive(spec.size)
    requires PlaceCopy(c, st, spec).Some?
    ensures Tracks(c, PlaceCopy(c, st, spec).value)
  {
    var f := FindBestFit(c, st.grid, spec.size).value;
    var size := RotateSize(spec.size, f.0).value;
    assert size == Rotations(spec.size)[f.0];
    assert Positive(size) by {
      RotationsKeepSigns(spec.size);
    }
    AddKeepsTracks(c, st, f.1, size, spec.tag);
  }

  /** The copies loop for each spec's own `count`, as the outer loop runs it. */
  function CopiesLoop(c: Container): (Load, Spec) -> Load {
    (s: Load, spec: Spec) => LoadCopies(c, s, spec, spec.count)
  }

  /** The best-fit copies loop meets what the shared outer loop needs. */
  lemma CopiesLoopFacts(c: Container)
    ensures LoadsCopies(CopiesLoop(c)) && CopiesKeepTracks(c, CopiesLoop(c))
  {
    forall st: Load, spec: Spec | Tracks(c, st) && Positive(spec.size)
      ensures Tracks(c, CopiesLoop(c)(st, spec))
    {
      LoadCopiesTracks(c, st, spec, spec.count);
    }
  }

  /** The specs in loading order: `sorted_box_specs`. */
  function LoadOrder(records: seq<BoxRecord>): (r: seq<Spec>)
    ensures multiset(r) == multiset(Map(records, RecordSpec))
  {
    var sorted := SortSpecs(ExpandSpecs(records));
    MapPermutation(sorted, ExpandSpecs(records), (w: WeightedSpec) => w.spec);
    assert Map(ExpandSpecs(records), (w: WeightedSpec) => w.spec) == Map(records, RecordSpec);
    Map(sorted, (w: WeightedSpec) => w.spec)
  }

  /** One run of the simulation: sort, load, and report the boxes loaded and
      the empty-space percentage. */
  function Simulate(c: Container, records: seq<BoxRecord>): (r: (Load, real))
    requires ContainerVolume(c) > 0
  {
    CopiesLoopFacts(c);
    var st := LoadEach(Empty, LoadOrder(records), CopiesLoop(c));
    (st, EmptyPercentage(c, st.occupied))
  }

  /** A run keeps the invariant, loads at most one box per record, each a
      rotation of a record's box with the record's location, and reports an
      empty percentage in [0, 100] that matches the loaded volume. */
  lemma SimulateFacts(c: Container, records: seq<BoxRecord>)
    requires 0 < c.width && 0 < c.length && 0 < c.height
    requires forall i :: 0 <= i < |records| ==> Positive(RecordSpec(records[i]).size)
    ensures ContainerVolume(c) > 0
    ensures var (st, pct) := Simulate(c, records);
      && Tracks(c, st)
      && |st.boxes| <= |records|
      && FromSpecs(Map(records, RecordSpec), st.boxes)
      && st.occupied == SumVolumes(LoadedBoxes(st.boxes))
      && 0.0 <= pct <= 100.0
  {
    PositiveVolume(c);
    var specs := LoadOrder(records);
    CopiesLoopFacts(c);
    var st := LoadEach(Empty, specs, CopiesLoop(c));
    forall i | 0 <= i < |specs| ensures Positive(specs[i].size) && specs[i].count == 1 {
      assert specs[i] in multiset(Map(records, RecordSpec));
    }
    EmptyTracks(c);
    LoadEachTracks(c, Empty, specs, CopiesLoop(c));
    assert FromSpecs([], Empty.boxes);
    LoadEachFromSpecs(Empty, [], specs, CopiesLoop(c));
    assert [] + specs == specs;
    FromSpecsReordered(specs, Map(records, RecordSpec), st.boxes);
    OneCopyEach(specs);
    OccupiedVolume(c, st);
    EmptyPercentageBounds(c, st.occupied);
  }
}
