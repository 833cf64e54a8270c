/**
 * The unloading simulation of unload.py. Zones po1 .. po5 are served in
 * turn; each item of the zone being served is unloaded after every item
 * blocking it has been taken out, either for good (same zone) or
 * temporarily (another zone). Temporarily unloaded items are reloaded when
 * the zone is done. Every action is logged with a running `unload_order`.
 */
module Unload {
  import opened Geometry
  import opened Items
  import opened Sorting
  import opened Seqs

  /** The zones, in the order they are served. */
  const Locations: seq<string> := ["po1", "po2", "po3", "po4", "po5"]

  datatype Action = Unload | TemporarilyUnload | Reload

  /** An entry of a step's `items`. */
  datatype Entry = Entry(action: Action, itemId: int, location: string, position: Point, unloadOrder: int)

  /** An element of `operations_log`: the zone served and its entries. */
  datatype Step = Step(location: string, entries: seq<Entry>)

  function EntryFor(action: Action, p: PlacedItem, order: int): Entry {
    Entry(action, p.id, p.location, p.position, order)
  }

  /** `is_blocking(a, b)`: `a` must come out before `b`. Their height ranges
      must overlap, and `a` is either nearer the door (smaller y) or, with
      overlapping depth ranges, higher. */
  predicate IsBlocking(a: PlacedItem, b: PlacedItem) {
    var za, zb := a.position.z, b.position.z;
    var ya, yb := a.position.y, b.position.y;
    za < zb + b.orientation.dz && zb < za + a.orientation.dz &&
    (ya < yb || (ya < yb + b.orientation.dy && yb < ya + a.orientation.dy && za > zb))
  }

  /** No item blocks itself. */
  lemma NotSelfBlocking(a: PlacedItem)
    ensures !IsBlocking(a, a)
  {
  }

  /** An item resting on top of another (its bottom at the other's top)
      never blocks it: the height ranges only touch. */
  lemma RestingOnTopDoesNotBlock(a: PlacedItem, b: PlacedItem)
    requires a.position.z == b.position.z + b.orientation.dz
    ensures !IsBlocking(a, b)
  {
  }

  /** Nearer the door at overlapping heights always blocks; an item further
      from the door blocks only from above with overlapping depth. */
  lemma BlockingCases(a: PlacedItem, b: PlacedItem)
    requires a.position.z < b.position.z + b.orientation.dz && b.position.z < a.position.z + a.orientation.dz
    ensures a.position.y < b.position.y ==> IsBlocking(a, b)
    ensures a.position.y >= b.position.y ==>
      (IsBlocking(a, b) <==>
        a.position.y < b.position.y + b.orientation.dy && b.position.y < a.position.y + a.orientation.dy &&
        a.position.z > b.position.z)
  {
  }

  function NegDepth(p: PlacedItem): int {
    -p.position.y
  }

  /** `sorted(packed_items, key=y, reverse=True)`: deepest first, stable. */
  function ByDepth(items: seq<PlacedItem>): (r: seq<PlacedItem>)
    ensures multiset(r) == multiset(items)
    ensures forall i, j :: 0 <= i < j < |r| ==> r[j].position.y <= r[i].position.y
    ensures forall k :: WithKey(r, NegDepth, k) == WithKey(items, NegDepth, k)
  {
    IntLessIsStrictTotalOrder();
    SortBySorted(items, NegDepth, IntLess);
    forall k ensures WithKey(SortBy(items, NegDepth, IntLess), NegDepth, k) == WithKey(items, NegDepth, k) {
      SortByStable(items, NegDepth, IntLess, k);
    }
    var r := SortBy(items, NegDepth, IntLess);
    assert forall i, j :: 0 <= i < j < |r| ==> !IntLess(NegDepth(r[j]), NegDepth(r[i]));
    r
  }

  /** The items of one zone, in order: `location_groups[location]` when
      applied to `sorted_items`. */
  function OfLocation(s: seq<PlacedItem>, location: string): seq<PlacedItem>
  {
    if |s| == 0 then []
    else OfLocation(s[..|s| - 1], location) + (if s[|s| - 1].location == location then [s[|s| - 1]] else [])
  }

  /** A zone's items are exactly the items with that location. */
  lemma {:induction false} OfLocationMembers(s: seq<PlacedItem>, location: string)
    ensures forall p :: p in OfLocation(s, location) <==> p in s && p.location == location
  {
    if |s| > 0 {
      OfLocationMembers(s[..|s| - 1], location);
      assert s == s[..|s| - 1] + [s[|s| - 1]];
    }
  }

  /** Deepest (largest y) first. */
  predicate DeepestFirst(s: seq<PlacedItem>) {
    forall i, j :: 0 <= i < j < |s| ==> s[j].position.y <= s[i].position.y
  }

  /** Taking a zone's items out of a deepest-first sequence keeps them
      deepest first. */
  lemma {:induction false} OfLocationKeepsOrder(s: seq<PlacedItem>, location: string)
    requires DeepestFirst(s)
    ensures DeepestFirst(OfLocation(s, location))
  {
    if |s| > 0 {
      var pre := s[..|s| - 1];
      OfLocationKeepsOrder(pre, location);
      OfLocationMembers(pre, location);
      var g := OfLocation(s, location);
      var gp := OfLocation(pre, location);
      assert g == gp + (if s[|s| - 1].location == location then [s[|s| - 1]] else []);
      forall i, j | 0 <= i < j < |g| ensures g[j].position.y <= g[i].position.y {
        if j >= |gp| {
          assert g[i] == gp[i] && gp[i] in pre;
          var k :| 0 <= k < |pre| && pre[k] == gp[i];
          assert s[k] == g[i] && g[j] == s[|s| - 1];
        } else {
          assert g[i] == gp[i] && g[j] == gp[j];
        }
      }
    }
  }

  /** Each zone's targets are served deepest first. */
  lemma TargetsDeepestFirst(items: seq<PlacedItem>, location: string)
    ensures DeepestFirst(OfLocation(ByDepth(items), location))
  {
    OfLocationKeepsOrder(ByDepth(items), location);
  }

  /** `blocking_items` for `item`: the items not yet unloaded for good that
      block it, in `sorted_items` order. */
  function Blockers(sorted: seq<PlacedItem>, unloaded: seq<PlacedItem>, item: PlacedItem): seq<PlacedItem>
  {
    if |sorted| == 0 then []
    else
      var p := sorted[|sorted| - 1];
      Blockers(sorted[..|sorted| - 1], unloaded, item) +
      (if p != item && p !in unloaded && IsBlocking(p, item) then [p] else [])
  }

  /** The blockers are exactly the other items, not unloaded for good, that
      block the target. */
  lemma {:induction false} BlockersMembers(sorted: seq<PlacedItem>, unloaded: seq<PlacedItem>, item: PlacedItem)
    ensures forall p :: p in Blockers(sorted, unloaded, item) <==>
      p in sorted && p != item && p !in unloaded && IsBlocking(p, item)
  {
    if |sorted| > 0 {
      BlockersMembers(sorted[..|sorted| - 1], unloaded, item);
      assert sorted == sorted[..|sorted| - 1] + [sorted[|sorted| - 1]];
    }
  }

  /** The state while one zone is served: `unloaded_items`,
      `temporarily_unloaded`, the step's entries so far, `unload_order` and
      `total_operations`. */
  datatype Pass = Pass(unloaded: seq<PlacedItem>, temp: seq<PlacedItem>, entries: seq<Entry>, order: int, total: int)

  /** The item ids of the entries with the given action, in order. */
  function IdsOf(entries: seq<Entry>, action: Action): seq<int>
  {
    if |entries| == 0 then []
    else IdsOf(entries[..|entries| - 1], action) +
         (if entries[|entries| - 1].action == action then [entries[|entries| - 1].itemId] else [])
  }

  function Ids(s: seq<PlacedItem>): seq<int> {
    Map(s, (p: PlacedItem) => p.id)
  }

  /** The pass extends `st`: its entries, counted by `total` and numbered on
      from `st.order`, are appended. */
  predicate Extends(st: Pass, r: Pass) {
    && |st.entries| <= |r.entries|
    && r.entries[..|st.entries|] == st.entries
    && r.order - st.order == r.total - st.total == |r.entries| - |st.entries|
    && (forall i :: |st.entries| <= i < |r.entries| ==> r.entries[i].unloadOrder == st.order + (i - |st.entries|))
  }

  /** The temporarily unloaded items are exactly those logged as such, in
      order, and nothing has been reloaded yet. */
  predicate TempLogged(st: Pass) {
    Ids(st.temp) == IdsOf(st.entries, TemporarilyUnload) && IdsOf(st.entries, Reload) == []
  }

  /** Logging one more entry. */
  lemma IdsOfAppend(entries: seq<Entry>, e: Entry, action: Action)
    ensures IdsOf(entries + [e], action) == IdsOf(entries, action) + (if e.action == action then [e.itemId] else [])
  {
    assert (entries + [e])[..|entries|] == entries;
  }

  /** Taking out one blocker: temporarily if it belongs to another zone,
      for good if it belongs to the zone being served. Exactly one entry,
      numbered `st.order`, is logged after the earlier ones. */
  function ClearOne(location: string, st: Pass, b: PlacedItem): (r: Pass)
    ensures |r.entries| == |st.entries| + 1 && r.entries[..|st.entries|] == st.entries
    ensures r.order == st.order + 1 && r.total == st.total + 1
    ensures r.entries[|st.entries|] == EntryFor(if b.location == location then Unload else TemporarilyUnload, b, st.order)
    ensures r.unloaded == st.unloaded + (if b.location == location then [b] else [])
    ensures r.temp == st.temp + (if b.location != location then [b] else [])
  {
    var e := EntryFor(if b.location != location then TemporarilyUnload else Unload, b, st.order);
    assert (st.entries + [e])[..|st.entries|] == st.entries;
    if b.location != location then Pass(st.unloaded, st.temp + [b], st.entries + [e], st.order + 1, st.total + 1)
    else Pass(st.unloaded + [b], st.temp, st.entries + [e], st.order + 1, st.total + 1)
  }

  /** Logging one entry numbered `prev.order` keeps a pass an extension. */
  lemma ExtendsStep(st: Pass, prev: Pass, r: Pass, e: Entry)
    requires Extends(st, prev)
    requires r.entries == prev.entries + [e] && e.unloadOrder == prev.order
    requires r.order == prev.order + 1 && r.total == prev.total + 1
    ensures Extends(st, r)
  {
    assert r.entries[..|st.entries|] == prev.entries[..|st.entries|];
  }

  /** A pass whose temporary list matches its log keeps doing so when one
      more blocker is taken out. */
  lemma TempLoggedStep(location: string, prev: Pass, b: PlacedItem)
    requires TempLogged(prev)
    ensures TempLogged(ClearOne(location, prev, b))
  {
    var r := ClearOne(location, prev, b);
    var e := r.entries[|prev.entries|];
    assert r.entries == prev.entries + [e];
    IdsOfAppend(prev.entries, e, TemporarilyUnload);
    IdsOfAppend(prev.entries, e, Reload);
    if b.location != location {
      assert Ids(prev.temp + [b]) == Ids(prev.temp) + [b.id];
    }
  }

  lemma TempLoggedMaybe(location: string, st: Pass, prev: Pass, b: PlacedItem)
    requires TempLogged(st) ==> TempLogged(prev)
    ensures TempLogged(st) ==> TempLogged(ClearOne(location, prev, b))
  {
    if TempLogged(st) {
      TempLoggedStep(location, prev, b);
    }
  }

  lemma EntriesStep(location: string, blockers: seq<PlacedItem>, st: Pass, prev: Pass, r: Pass)
    requires |blockers| > 0
    requires |prev.entries| == |st.entries| + |blockers| - 1 && prev.order == st.order + |blockers| - 1
    requires forall j :: 0 <= j < |blockers| - 1 ==>
      prev.entries[|st.entries| + j] == EntryFor(if blockers[j].location != location then TemporarilyUnload else Unload,
                                                 blockers[j], st.order + j)
    requires var b := blockers[|blockers| - 1];
      r.entries == prev.entries + [EntryFor(if b.location != location then TemporarilyUnload else Unload, b, prev.order)]
    ensures forall j :: 0 <= j < |blockers| ==>
      r.entries[|st.entries| + j] == EntryFor(if blockers[j].location != location then TemporarilyUnload else Unload,
                                              blockers[j], st.order + j)
  {
    forall j | 0 <= j < |blockers|
      ensures r.entries[|st.entries| + j] == EntryFor(if blockers[j].location != location then TemporarilyUnload else Unload,
                                                      blockers[j], st.order + j)
    {
      if j < |blockers| - 1 {
        assert r.entries[|st.entries| + j] == prev.entries[|st.entries| + j];
      }
    }
  }

  lemma UnloadedStep(location: string, blockers: seq<PlacedItem>, st: Pass, prev: Pass, r: Pass)
    requires |blockers| > 0
    requires prev.unloaded == st.unloaded + OfLocation(blockers[..|blockers| - 1], location)
    requires var b := blockers[|blockers| - 1];
      r.unloaded == prev.unloaded + (if b.location == location then [b] else [])
    ensures r.unloaded == st.unloaded + OfLocation(blockers, location)
  {
  }

  /** The loop's step: what the loop promises for all but the last blocker
      carries over to all blockers once the last is taken out. */
  lemma ClearStep(location: string, blockers: seq<PlacedItem>, st: Pass, prev: Pass)
    requires |blockers| > 0
    requires Extends(st, prev) && |prev.entries| == |st.entries| + |blockers| - 1
    requires forall j :: 0 <= j < |blockers| - 1 ==>
      prev.entries[|st.entries| + j] == EntryFor(if blockers[j].location != location then TemporarilyUnload else Unload,
                                                 blockers[j], st.order + j)
    requires prev.unloaded == st.unloaded + OfLocation(blockers[..|blockers| - 1], location)
    requires TempLogged(st) ==> TempLogged(prev)
    ensures var r := ClearOne(location, prev, blockers[|blockers| - 1]);
      && Extends(st, r) && |r.entries| == |st.entries| + |blockers|
      && (forall j :: 0 <= j < |blockers| ==>
            r.entries[|st.entries| + j] == EntryFor(if blockers[j].location != location then TemporarilyUnload else Unload,
                                                    blockers[j], st.order + j))
      && r.unloaded == st.unloaded + OfLocation(blockers, location)
      && (TempLogged(st) ==> TempLogged(r))
  {
    var b := blockers[|blockers| - 1];
    var r := ClearOne(location, prev, b);
    assert r.entries == r.entries[..|prev.entries|] + [r.entries[|prev.entries|]];
    ExtendsStep(st, prev, r, r.entries[|r.entries| - 1]);
    TempLoggedMaybe(location, st, prev, b);
    UnloadedStep(location, blockers, st, prev, r);
    EntriesStep(location, blockers, st, prev, r);
  }

  /** The `for blocking in blocking_items` loop. */
  function ClearBlockers(location: string, blockers: seq<PlacedItem>, st: Pass): (r: Pass)
    ensures Extends(st, r) && |r.entries| == |st.entries| + |blockers|
    ensures forall j :: 0 <= j < |blockers| ==>
      r.entries[|st.entries| + j] == EntryFor(if blockers[j].location != location then TemporarilyUnload else Unload,
                                              blockers[j], st.order + j)
    ensures r.unloaded == st.unloaded + OfLocation(blockers, location)
    ensures TempLogged(st) ==> TempLogged(r)
    decreases |blockers|
  {
    if |blockers| == 0 then st
    else
      var pre := blockers[..|blockers| - 1];
      var b := blockers[|blockers| - 1];
      var prev := ClearBlockers(location, pre, st);
      ClearStep(location, blockers, st, prev);
      ClearOne(location, prev, b)
  }

  /** Serving one target: clear its blockers, then unload it. */
  function UnloadTarget(location: string, sorted: seq<PlacedItem>, st: Pass, item: PlacedItem): (r: Pass)
    ensures Extends(st, r)
    ensures var blockers := Blockers(sorted, st.unloaded, item);
      && |r.entries| == |st.entries| + |blockers| + 1
      && r.entries[|r.entries| - 1] == EntryFor(Unload, item, r.order - 1)
      && (forall j :: 0 <= j < |blockers| ==>
            r.entries[|st.entries| + j] == EntryFor(if blockers[j].location != location then TemporarilyUnload else Unload,
                                                    blockers[j], st.order + j))
    ensures TempLogged(st) ==> TempLogged(r)
  {
    var blockers := Blockers(sorted, st.unloaded, item);
    var cleared := ClearBlockers(location, blockers, st);
    var e := EntryFor(Unload, item, cleared.order);
    var r := Pass(cleared.unloaded + [item], cleared.temp, cleared.entries + [e], cleared.order + 1, cleared.total + 1);
    TargetStep(location, blockers, st, cleared, r, e);
    r
  }

  lemma TargetStep(location: string, blockers: seq<PlacedItem>, st: Pass, cleared: Pass, r: Pass, e: Entry)
    requires Extends(st, cleared) && |cleared.entries| == |st.entries| + |blockers|
    requires forall j :: 0 <= j < |blockers| ==>
      cleared.entries[|st.entries| + j] == EntryFor(if blockers[j].location != location then TemporarilyUnload else Unload,
                                                    blockers[j], st.order + j)
    requires TempLogged(st) ==> TempLogged(cleared)
    requires e.action == Unload && e.unloadOrder == cleared.order
    requires r.temp == cleared.temp && r.entries == cleared.entries + [e]
    requires r.order == cleared.order + 1 && r.total == cleared.total + 1
    ensures Extends(st, r)
    ensures |r.entries| == |st.entries| + |blockers| + 1 && r.entries[|r.entries| - 1] == e && e.unloadOrder == r.order - 1
    ensures forall j :: 0 <= j < |blockers| ==>
      r.entries[|st.entries| + j] == EntryFor(if blockers[j].location != location then TemporarilyUnload else Unload,
                                              blockers[j], st.order + j)
    ensures TempLogged(st) ==> TempLogged(r)
  {
    ExtendsStep(st, cleared, r, e);
    IdsOfAppend(cleared.entries, e, TemporarilyUnload);
    IdsOfAppend(cleared.entries, e, Reload);
    forall j | 0 <= j < |blockers|
      ensures r.entries[|st.entries| + j] == EntryFor(if blockers[j].location != location then TemporarilyUnload else Unload,
                                                      blockers[j], st.order + j)
    {
      assert r.entries[|st.entries| + j] == cleared.entries[|st.entries| + j];
    }
  }

  /** `for item in items_to_unload`. */
  function UnloadGroup(location: string, sorted: seq<PlacedItem>, st: Pass, group: seq<PlacedItem>): (r: Pass)
    ensures Extends(st, r)
    ensures TempLogged(st) ==> TempLogged(r)
    decreases |group|
  {
    if |group| == 0 then st
    else
      var prev := UnloadGroup(location, sorted, st, group[..|group| - 1]);
      var r := UnloadTarget(location, sorted, prev, group[|group| - 1]);
      assert r.entries[..|st.entries|] == r.entries[..|prev.entries|][..|st.entries|];
      r
  }

  /** `for temp_item in temporarily_unloaded`: one Reload per item, in order,
      numbered on from `order`. */
  function Reloads(temp: seq<PlacedItem>, order: int): (r: seq<Entry>)
    ensures |r| == |temp|
    ensures forall i :: 0 <= i < |r| ==> r[i] == EntryFor(Reload, temp[i], order + i)
  {
    seq(|temp|, i requires 0 <= i < |temp| => EntryFor(Reload, temp[i], order + i))
  }

  lemma {:induction false} ReloadIds(temp: seq<PlacedItem>, order: int, entries: seq<Entry>)
    ensures IdsOf(entries + Reloads(temp, order), Reload) == IdsOf(entries, Reload) + Ids(temp)
    decreases |temp|
  {
    if |temp| == 0 {
      assert entries + Reloads(temp, order) == entries;
    } else {
      var pre := temp[..|temp| - 1];
      ReloadIds(pre, order, entries);
      var last := EntryFor(Reload, temp[|temp| - 1], order + |temp| - 1);
      var before := entries + Reloads(pre, order);
      ReloadsSnoc(temp, order);
      IdsSnoc(temp);
      calc {
        IdsOf(entries + Reloads(temp, order), Reload);
        == { assert entries + Reloads(temp, order) == before + [last]; }
        IdsOf(before + [last], Reload);
        == { IdsOfAppend(before, last, Reload); }
        IdsOf(before, Reload) + [last.itemId];
        ==
        IdsOf(entries, Reload) + Ids(pre) + [temp[|temp| - 1].id];
        ==
        IdsOf(entries, Reload) + Ids(temp);
      }
    }
  }

  lemma ReloadsSnoc(temp: seq<PlacedItem>, order: int)
    requires |temp| > 0
    ensures Reloads(temp, order) ==
            Reloads(temp[..|temp| - 1], order) + [EntryFor(Reload, temp[|temp| - 1], order + |temp| - 1)]
  {
  }

  lemma IdsSnoc(s: seq<PlacedItem>)
    requires |s| > 0
    ensures Ids(s) == Ids(s[..|s| - 1]) + [s[|s| - 1].id]
  {
  }

  /** Entries with other actions add nothing to `IdsOf`. */
  lemma {:induction false} IdsOfOthers(entries: seq<Entry>, extra: seq<Entry>, action: Action)
    requires forall i :: 0 <= i < |extra| ==> extra[i].action != action
    ensures IdsOf(entries + extra, action) == IdsOf(entries, action)
    decreases |extra|
  {
    if |extra| == 0 {
      assert entries + extra == entries;
    } else {
      var pre := extra[..|extra| - 1];
      IdsOfOthers(entries, pre, action);
      assert entries + extra == (entries + pre) + [extra[|extra| - 1]];
      IdsOfAppend(entries + pre, extra[|extra| - 1], action);
    }
  }

  /** Across zones: what is unloaded for good, the next `unload_order`,
      `total_operations` and the log so far. */
  datatype Run = Run(unloaded: seq<PlacedItem>, order: int, total: int, log: seq<Step>)

  /** All entries of the log, step after step. */
  function AllEntries(log: seq<Step>): seq<Entry>
  {
    if |log| == 0 then [] else AllEntries(log[..|log| - 1]) + log[|log| - 1].entries
  }

  /** Serving one zone: its targets, then the reloads; the temporary list is
      cleared afterwards. Returns the state after the zone and its step. */
  function ServeLocation(location: string, sorted: seq<PlacedItem>, run: Run): (r: (Run, Step))
    ensures r.1.location == location && r.0.log == run.log
    ensures r.0.order - run.order == r.0.total - run.total == |r.1.entries|
    ensures forall i :: 0 <= i < |r.1.entries| ==> r.1.entries[i].unloadOrder == run.order + i
    ensures IdsOf(r.1.entries, Reload) == IdsOf(r.1.entries, TemporarilyUnload)
  {
    var start := Pass(run.unloaded, [], [], run.order, run.total);
    var st := UnloadGroup(location, sorted, start, OfLocation(sorted, location));
    assert TempLogged(start);
    CloseZone(start, st);
    (Run(st.unloaded, st.order + |st.temp|, st.total + |st.temp|, run.log),
     Step(location, st.entries + Reloads(st.temp, st.order)))
  }

  /** Appending the reloads to a zone's entries: numbering carries on, and
      every temporarily unloaded item is reloaded once, in order. */
  lemma CloseZone(start: Pass, st: Pass)
    requires start.entries == [] && Extends(start, st) && TempLogged(st)
    ensures var entries := st.entries + Reloads(st.temp, st.order);
      && st.order + |st.temp| - start.order == st.total + |st.temp| - start.total == |entries|
      && (forall i :: 0 <= i < |entries| ==> entries[i].unloadOrder == start.order + i)
      && IdsOf(entries, Reload) == IdsOf(entries, TemporarilyUnload)
  {
    CloseZoneNumbering(start, st);
    ReloadIds(st.temp, st.order, st.entries);
    IdsOfOthers(st.entries, Reloads(st.temp, st.order), TemporarilyUnload);
  }

  lemma CloseZoneNumbering(start: Pass, st: Pass)
    requires start.entries == [] && Extends(start, st)
    ensures var entries := st.entries + Reloads(st.temp, st.order);
      && st.order + |st.temp| - start.order == st.total + |st.temp| - start.total == |entries|
      && (forall i :: 0 <= i < |entries| ==> entries[i].unloadOrder == start.order + i)
  {
    var entries := st.entries + Reloads(st.temp, st.order);
    forall i | 0 <= i < |entries| ensures entries[i].unloadOrder == start.order + i {
      if i < |st.entries| {
        assert entries[i] == st.entries[i];
      } else {
        assert entries[i] == Reloads(st.temp, st.order)[i - |st.entries|];
      }
    }
  }

  /** `for location in [...]`. */
  function ServeAll(sorted: seq<PlacedItem>, locations: seq<string>): (r: Run)
    ensures |r.log| == |locations|
    ensures forall i :: 0 <= i < |locations| ==> r.log[i].location == locations[i]
    ensures r.total == |AllEntries(r.log)| && r.order == r.total + 1
    ensures forall i :: 0 <= i < |AllEntries(r.log)| ==> AllEntries(r.log)[i].unloadOrder == i + 1
    ensures forall i :: 0 <= i < |r.log| ==> IdsOf(r.log[i].entries, Reload) == IdsOf(r.log[i].entries, TemporarilyUnload)
    decreases |locations|
  {
    if |locations| == 0 then Run([], 1, 0, [])
    else
      var prev := ServeAll(sorted, locations[..|locations| - 1]);
      var (next, step) := ServeLocation(locations[|locations| - 1], sorted, prev);
      var r := next.(log := prev.log + [step]);
      ServeAllStep(prev, step, r);
      LogStep(prev.log, step, locations);
      r
  }

  lemma LogStep(log: seq<Step>, step: Step, locations: seq<string>)
    requires |locations| > 0 && |log| == |locations| - 1
    requires forall i :: 0 <= i < |log| ==> log[i].location == locations[i]
    requires step.location == locations[|locations| - 1]
    requires forall i :: 0 <= i < |log| ==> IdsOf(log[i].entries, Reload) == IdsOf(log[i].entries, TemporarilyUnload)
    requires IdsOf(step.entries, Reload) == IdsOf(step.entries, TemporarilyUnload)
    ensures forall i :: 0 <= i < |locations| ==> (log + [step])[i].location == locations[i]
    ensures forall i :: 0 <= i < |log| + 1 ==>
      IdsOf((log + [step])[i].entries, Reload) == IdsOf((log + [step])[i].entries, TemporarilyUnload)
  {
  }

  lemma ServeAllStep(prev: Run, step: Step, r: Run)
    requires prev.total == |AllEntries(prev.log)| && prev.order == prev.total + 1
    requires forall i :: 0 <= i < |AllEntries(prev.log)| ==> AllEntries(prev.log)[i].unloadOrder == i + 1
    requires r.log == prev.log + [step]
    requires r.order - prev.order == r.total - prev.total == |step.entries|
    requires forall i :: 0 <= i < |step.entries| ==> step.entries[i].unloadOrder == prev.order + i
    ensures r.total == |AllEntries(r.log)| && r.order == r.total + 1
    ensures forall i :: 0 <= i < |AllEntries(r.log)| ==> AllEntries(r.log)[i].unloadOrder == i + 1
  {
    assert r.log[..|r.log| - 1] == prev.log;
    assert AllEntries(r.log) == AllEntries(prev.log) + step.entries;
  }

  /** `unload_items`: the total number of operations and the log. */
  function UnloadItems(items: seq<PlacedItem>): (r: (int, seq<Step>))
    ensures |r.1| == |Locations|
    ensures forall i :: 0 <= i < |Locations| ==> r.1[i].location == Locations[i]
    ensures r.0 == |AllEntries(r.1)|
    ensures forall i :: 0 <= i < |AllEntries(r.1)| ==> AllEntries(r.1)[i].unloadOrder == i + 1
    ensures forall i :: 0 <= i < |r.1| ==> IdsOf(r.1[i].entries, Reload) == IdsOf(r.1[i].entries, TemporarilyUnload)
  {
    var run := ServeAll(ByDepth(items), Locations);
    (run.total, run.log)
  }
}
