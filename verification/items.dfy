/**
 * The records the packers consume and produce: an item to load, and a
 * placed item (the source's `packed_items` dictionaries).
 */
module Items {
  import opened Geometry

  /** An item to load. Dimensions are the source's `int(...)` truncations;
      `location` is its destination zone, e.g. "po1". */
  datatype Item = Item(id: int, width: int, length: int, height: int, weight: real, location: string)

  /** A placed item: minimum corner, the orientation it was placed in, its
      zone, its load order and its weight. */
  datatype PlacedItem = PlacedItem(id: int, position: Point, orientation: Size, location: string,
                                   loadOrder: int, weight: real)

  function Dims(item: Item): Size {
    Size(item.width, item.length, item.height)
  }

  function BoxOf(p: PlacedItem): Box {
    Box(p.position, p.orientation)
  }

  /** The placed record the packers append for `item`. */
  function Place(item: Item, position: Point, orientation: Size, loadOrder: int): PlacedItem {
    PlacedItem(item.id, position, orientation, item.location, loadOrder, item.weight)
  }

  /** The extents reordered by a permutation of the three axes. */
  predicate IsPermutation(t: Size, s: Size) {
    multiset{t.dx, t.dy, t.dz} == multiset{s.dx, s.dy, s.dz}
  }

  /** The six axis orders, in the order the source lists them:
      (w,l,h), (w,h,l), (l,w,h), (l,h,w), (h,w,l), (h,l,w). */
  function Rotations(s: Size): (r: seq<Size>)
    ensures |r| == 6 && r[0] == s
  {
    var w, l, h := s.dx, s.dy, s.dz;
    [Size(w, l, h), Size(w, h, l), Size(l, w, h), Size(l, h, w), Size(h, w, l), Size(h, l, w)]
  }

  /** Each rotation reorders the extents and so keeps the volume. */
  lemma RotationsPreserveVolume(s: Size)
    ensures forall o :: o in Rotations(s) ==> IsPermutation(o, s) && Volume(o) == Volume(s)
  {
    var w, l, h := s.dx, s.dy, s.dz;
    assert w * h * l == w * l * h && l * w * h == w * l * h && l * h * w == w * l * h;
    assert h * w * l == w * l * h && h * l * w == w * l * h;
  }

  /** Rotating keeps every extent positive, or every extent non-negative. */
  lemma RotationsKeepSigns(s: Size)
    ensures forall o :: o in Rotations(s) ==> (Positive(s) ==> Positive(o)) && (NonNegative(s) ==> NonNegative(o))
  {
  }

  lemma InTriple(x: int, a: int, b: int, c: int)
    requires x in multiset{a, b, c}
    ensures x == a || x == b || x == c
  {
  }

  lemma CancelFirst(x: int, a: int, b: int, c: int, d: int)
    requires multiset{x, a, b} == multiset{x, c, d}
    ensures (a == c && b == d) || (a == d && b == c)
  {
    assert multiset{a, b} == multiset{x, a, b} - multiset{x};
    assert multiset{c, d} == multiset{x, c, d} - multiset{x};
    assert a in multiset{c, d};
    if a == c {
      assert multiset{b} == multiset{a, b} - multiset{a};
      assert multiset{d} == multiset{c, d} - multiset{c};
      assert b in multiset{d};
    } else {
      assert a == d;
      assert multiset{b} == multiset{a, b} - multiset{a};
      assert multiset{c} == multiset{c, d} - multiset{d};
      assert b in multiset{c};
    }
  }

  /** A permutation whose first extent is `a`, of a triple equal as a
      multiset to (a, b, c), is (a, b, c) or (a, c, b). */
  lemma PermutationWithFirst(t: Size, a: int, b: int, c: int)
    requires multiset{t.dx, t.dy, t.dz} == multiset{a, b, c}
    requires t.dx == a
    ensures t == Size(a, b, c) || t == Size(a, c, b)
  {
    CancelFirst(t.dx, t.dy, t.dz, b, c);
  }

  lemma PermutedTriple(a: int, b: int, c: int)
    ensures multiset{a, b, c} == multiset{b, a, c}
    ensures multiset{a, b, c} == multiset{c, a, b}
  {
  }

  /** Every permutation of the three extents is among the six rotations, so
      `Rotations` lists exactly the permutations. */
  lemma RotationsAreAllPermutations(s: Size, t: Size)
    ensures IsPermutation(t, s) <==> t in Rotations(s)
  {
    RotationsPreserveVolume(s);
    if IsPermutation(t, s) {
      PermutationIsRotation(s, t);
    }
  }

  lemma PermutationIsRotation(s: Size, t: Size)
    requires IsPermutation(t, s)
    ensures t in Rotations(s)
  {
    var r := Rotations(s);
    assert t.dx in multiset{s.dx, s.dy, s.dz};
    InTriple(t.dx, s.dx, s.dy, s.dz);
    PermutedTriple(s.dx, s.dy, s.dz);
    if t.dx == s.dx {
      PermutationWithFirst(t, s.dx, s.dy, s.dz);
      assert t == r[0] || t == r[1];
    } else if t.dx == s.dy {
      PermutationWithFirst(t, s.dy, s.dx, s.dz);
      assert t == r[2] || t == r[3];
    } else {
      PermutationWithFirst(t, s.dz, s.dx, s.dy);
      assert t == r[4] || t == r[5];
    }
  }
}
