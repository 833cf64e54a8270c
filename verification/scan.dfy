/**
 * Exhaustive searches over nested integer ranges. Every packer scans
 * candidate corners with three nested `for` loops; the points such a scan
 * visits, in the order it visits them, are `Grid(...)`, and the order is the
 * lexicographic order on (outer, middle, inner) loop variables.
 */
module Scan {
  import opened Wrappers

  /** The loop variables of three nested loops, outermost first. */
  type Triple = (int, int, int)

  /** Lexicographic order on triples: the order in which nested loops visit them. */
  predicate LexLess(a: Triple, b: Triple) {
    a.0 < b.0 || (a.0 == b.0 && (a.1 < b.1 || (a.1 == b.1 && a.2 < b.2)))
  }

  predicate Increasing(s: seq<Triple>) {
    forall i, j :: 0 <= i < j < |s| ==> LexLess(s[i], s[j])
  }

  predicate InRanges(t: Triple, lo1: int, hi1: int, lo2: int, hi2: int, lo3: int, hi3: int) {
    lo1 <= t.0 < hi1 && lo2 <= t.1 < hi2 && lo3 <= t.2 < hi3
  }

  lemma LexLessIsStrictOrder(a: Triple, b: Triple, c: Triple)
    ensures !LexLess(a, a)
    ensures LexLess(a, b) && LexLess(b, c) ==> LexLess(a, c)
    ensures a != b ==> LexLess(a, b) || LexLess(b, a)
  {
  }

  lemma IncreasingConcat(a: seq<Triple>, b: seq<Triple>)
    requires Increasing(a) && Increasing(b)
    requires forall i, j :: 0 <= i < |a| && 0 <= j < |b| ==> LexLess(a[i], b[j])
    ensures Increasing(a + b)
  {
    forall i, j | 0 <= i < j < |a + b|
      ensures LexLess((a + b)[i], (a + b)[j])
    {
      if j < |a| {
        assert (a + b)[i] == a[i] && (a + b)[j] == a[j];
      } else if i < |a| {
        assert (a + b)[i] == a[i] && (a + b)[j] == b[j - |a|];
      } else {
        assert (a + b)[i] == b[i - |a|] && (a + b)[j] == b[j - |a|];
      }
    }
  }

  /** The innermost loop: (a, b, c) for c in range(lo, hi). */
  function Row(a: int, b: int, lo: int, hi: int): (r: seq<Triple>)
    decreases hi - lo
    ensures forall t :: t in r <==> t.0 == a && t.1 == b && lo <= t.2 < hi
    ensures Increasing(r)
  {
    if lo >= hi then []
    else
      var rest := Row(a, b, lo + 1, hi);
      IncreasingConcat([(a, b, lo)], rest);
      [(a, b, lo)] + rest
  }

  /** The two inner loops: (a, b, c) for b in range(lo2, hi2), c in range(lo3, hi3). */
  function Plane(a: int, lo2: int, hi2: int, lo3: int, hi3: int): (r: seq<Triple>)
    decreases hi2 - lo2
    ensures forall t :: t in r <==> t.0 == a && lo2 <= t.1 < hi2 && lo3 <= t.2 < hi3
    ensures Increasing(r)
  {
    if lo2 >= hi2 then []
    else
      var row := Row(a, lo2, lo3, hi3);
      var rest := Plane(a, lo2 + 1, hi2, lo3, hi3);
      assert forall i, j :: 0 <= i < |row| && 0 <= j < |rest| ==> LexLess(row[i], rest[j]) by {
        forall i, j | 0 <= i < |row| && 0 <= j < |rest|
          ensures LexLess(row[i], rest[j])
        {
          assert row[i] in row && rest[j] in rest;
        }
      }
      IncreasingConcat(row, rest);
      row + rest
  }

  /** All three loops, outermost first. */
  function Grid(lo1: int, hi1: int, lo2: int, hi2: int, lo3: int, hi3: int): (r: seq<Triple>)
    decreases hi1 - lo1
    ensures forall t :: t in r <==> InRanges(t, lo1, hi1, lo2, hi2, lo3, hi3)
    ensures Increasing(r)
  {
    if lo1 >= hi1 then []
    else
      var plane := Plane(lo1, lo2, hi2, lo3, hi3);
      var rest := Grid(lo1 + 1, hi1, lo2, hi2, lo3, hi3);
      assert forall i, j :: 0 <= i < |plane| && 0 <= j < |rest| ==> LexLess(plane[i], rest[j]) by {
        forall i, j | 0 <= i < |plane| && 0 <= j < |rest|
          ensures LexLess(plane[i], rest[j])
        {
          assert plane[i] in plane && rest[j] in rest;
        }
      }
      IncreasingConcat(plane, rest);
      plane + rest
  }

  /** The index of the first element satisfying `ok`: what a loop with an
      early `return` finds. */
  function FirstMatch<T>(s: seq<T>, ok: T -> bool): (r: Option<nat>)
    ensures r.Some? ==> r.value < |s| && ok(s[r.value])
    ensures r.Some? ==> forall j :: 0 <= j < r.value ==> !ok(s[j])
    ensures r.None? ==> forall j :: 0 <= j < |s| ==> !ok(s[j])
  {
    if |s| == 0 then None
    else if ok(s[0]) then Some(0)
    else
      match FirstMatch(s[1..], ok)
      case None => None
      case Some(k) => Some(k + 1)
  }

  /** The first point of three nested loops at which `ok` holds. Nothing
      lexicographically smaller in the ranges satisfies `ok`; `None` means no
      point in the ranges does. */
  function FirstInGrid(lo1: int, hi1: int, lo2: int, hi2: int, lo3: int, hi3: int,
                       ok: Triple -> bool): (r: Option<Triple>)
    ensures r.Some? ==> InRanges(r.value, lo1, hi1, lo2, hi2, lo3, hi3) && ok(r.value)
    ensures r.Some? ==> forall t :: InRanges(t, lo1, hi1, lo2, hi2, lo3, hi3) && LexLess(t, r.value) ==> !ok(t)
    ensures r.None? ==> forall t :: InRanges(t, lo1, hi1, lo2, hi2, lo3, hi3) ==> !ok(t)
  {
    var g := Grid(lo1, hi1, lo2, hi2, lo3, hi3);
    var m := FirstMatch(g, ok);
    if m.None? then
      assert forall t :: InRanges(t, lo1, hi1, lo2, hi2, lo3, hi3) ==> !ok(t) by {
        forall t | InRanges(t, lo1, hi1, lo2, hi2, lo3, hi3)
          ensures !ok(t)
        {
          assert t in g;
        }
      }
      None
    else
      var k := m.value;
      assert g[k] in g;
      assert forall t :: InRanges(t, lo1, hi1, lo2, hi2, lo3, hi3) && LexLess(t, g[k]) ==> !ok(t) by {
        forall t | InRanges(t, lo1, hi1, lo2, hi2, lo3, hi3) && LexLess(t, g[k])
          ensures !ok(t)
        {
          assert t in g;
          var j :| 0 <= j < |g| && g[j] == t;
          LexLessIsStrictOrder(g[k], t, g[k]);
          assert j != k && !LexLess(g[k], g[j]);
        }
      }
      Some(g[k])
  }

  /** The best-scoring element, as found by a forward scan that starts from
      score -1 and replaces the current best only on a strictly greater score:
      the result is the first element attaining the maximum. */
  function ArgMax<T>(s: seq<T>, ok: T -> bool, score: T -> int): (r: Option<nat>)
    ensures r.Some? ==> r.value < |s| && ok(s[r.value]) && score(s[r.value]) > -1
    ensures r.Some? ==> forall j :: 0 <= j < |s| && ok(s[j]) ==> score(s[j]) <= score(s[r.value])
    ensures r.Some? ==> forall j :: 0 <= j < r.value && ok(s[j]) ==> score(s[j]) < score(s[r.value])
    ensures r.None? ==> forall j :: 0 <= j < |s| && ok(s[j]) ==> score(s[j]) <= -1
    decreases |s|
  {
    if |s| == 0 then None
    else
      var prev := ArgMax(s[..|s| - 1], ok, score);
      var bound := if prev.Some? then score(s[prev.value]) else -1;
      if ok(s[|s| - 1]) && score(s[|s| - 1]) > bound then Some(|s| - 1) else prev
  }

  /** The best-scoring point of three nested loops, as found by a scan that
      keeps a point only when its score is strictly greater than the best so
      far (starting from -1): the first point in loop order attaining the
      maximum score among the points satisfying `ok`. */
  function BestInGrid(lo1: int, hi1: int, lo2: int, hi2: int, lo3: int, hi3: int,
                      ok: Triple -> bool, score: Triple -> int): (r: Option<Triple>)
    ensures r.Some? ==> InRanges(r.value, lo1, hi1, lo2, hi2, lo3, hi3) && ok(r.value) && score(r.value) > -1
    ensures r.Some? ==> forall t :: InRanges(t, lo1, hi1, lo2, hi2, lo3, hi3) && ok(t) ==> score(t) <= score(r.value)
    ensures r.Some? ==> forall t :: InRanges(t, lo1, hi1, lo2, hi2, lo3, hi3) && ok(t) && LexLess(t, r.value) ==>
              score(t) < score(r.value)
    ensures r.None? ==> forall t :: InRanges(t, lo1, hi1, lo2, hi2, lo3, hi3) && ok(t) ==> score(t) <= -1
  {
    var g := Grid(lo1, hi1, lo2, hi2, lo3, hi3);
    var m := ArgMax(g, ok, score);
    if m.None? then
      assert forall t :: InRanges(t, lo1, hi1, lo2, hi2, lo3, hi3) && ok(t) ==> score(t) <= -1 by {
        forall t | InRanges(t, lo1, hi1, lo2, hi2, lo3, hi3) && ok(t)
          ensures score(t) <= -1
        {
          assert t in g;
        }
      }
      None
    else
      var k := m.value;
      assert g[k] in g;
      assert forall t :: InRanges(t, lo1, hi1, lo2, hi2, lo3, hi3) && ok(t) ==> score(t) <= score(g[k]) by {
        forall t | InRanges(t, lo1, hi1, lo2, hi2, lo3, hi3) && ok(t)
          ensures score(t) <= score(g[k])
        {
          assert t in g;
        }
      }
      assert forall t :: InRanges(t, lo1, hi1, lo2, hi2, lo3, hi3) && ok(t) && LexLess(t, g[k]) ==> score(t) < score(g[k]) by {
        forall t | InRanges(t, lo1, hi1, lo2, hi2, lo3, hi3) && ok(t) && LexLess(t, g[k])
          ensures score(t) < score(g[k])
        {
          assert t in g;
          var j :| 0 <= j < |g| && g[j] == t;
          LexLessIsStrictOrder(g[k], t, g[k]);
          assert j != k && !LexLess(g[k], g[j]);
        }
      }
      Some(g[k])
  }
}
