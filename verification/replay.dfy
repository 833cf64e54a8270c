/**
 * The unload animation in unloading_visualize.py, without the drawing: the
 * order in which the logged operations are replayed (`get_sorted_operations`),
 * and the rule by which each replayed operation changes the dictionary of
 * items still in the container (`item_positions`).
 */
module Replay {
  import opened Wrappers
  import opened Items
  import opened Sorting
  import opened Seqs
  import opened Scan
  import opened Unload

  predicate IsReload(e: Entry) {
    e.action == Reload
  }

  predicate NotReload(e: Entry) {
    e.action != Reload
  }

  /** Sorting by `unload_order` with `reverse=True`: a stable ascending sort
      on the negated order. */
  function NegOrder(e: Entry): int {
    -e.unloadOrder
  }

  /** One step's entries in replay order: the unloads, latest logged first,
      then the reloads as logged. */
  function StepOrder(step: Step): (r: seq<Entry>)
    ensures multiset(r) == multiset(step.entries)
    ensures |r| == |step.entries|
  {
    FilterPartition(step.entries, NotReload, IsReload);
    SortBy(Filter(step.entries, NotReload), NegOrder, IntLess) + Filter(step.entries, IsReload)
  }

  /** The replay order of one step: the non-Reload entries come first, in
      descending `unload_order`, equal orders keeping their logged order. */
  lemma StepOrderUnloads(step: Step)
    ensures var r := StepOrder(step);
      var n := |Filter(step.entries, NotReload)|;
      && n <= |r|
      && (forall i, j :: 0 <= i < j < n ==> r[j].unloadOrder <= r[i].unloadOrder)
      && (forall k :: WithKey(r[..n], NegOrder, k) == WithKey(Filter(step.entries, NotReload), NegOrder, k))
  {
    var unloads := Filter(step.entries, NotReload);
    var sorted := SortBy(unloads, NegOrder, IntLess);
    var r := StepOrder(step);
    assert r[..|unloads|] == sorted;
    IntLessIsStrictTotalOrder();
    SortBySorted(unloads, NegOrder, IntLess);
    forall k ensures WithKey(r[..|unloads|], NegOrder, k) == WithKey(unloads, NegOrder, k) {
      SortByStable(unloads, NegOrder, IntLess, k);
    }
  }

  /** After the non-Reload entries come the Reload entries, and they keep
      their logged order. */
  lemma StepOrderReloads(step: Step)
    ensures var r := StepOrder(step);
      var n := |Filter(step.entries, NotReload)|;
      && (forall i :: 0 <= i < |r| ==> (r[i].action != Reload <==> i < n))
      && Filter(r, IsReload) == Filter(step.entries, IsReload)
  {
    var unloads := Filter(step.entries, NotReload);
    var reloads := Filter(step.entries, IsReload);
    var sorted := SortBy(unloads, NegOrder, IntLess);
    AllNotReload(unloads, sorted);
    AllReload(reloads);
    UnloadsThenReloads(sorted, reloads);
  }

  lemma UnloadsThenReloads(a: seq<Entry>, b: seq<Entry>)
    requires forall i :: 0 <= i < |a| ==> a[i].action != Reload
    requires forall i :: 0 <= i < |b| ==> b[i].action == Reload
    ensures forall i :: 0 <= i < |a + b| ==> ((a + b)[i].action != Reload <==> i < |a|)
    ensures Filter(a + b, IsReload) == b
  {
    forall i | 0 <= i < |a + b| ensures (a + b)[i].action != Reload <==> i < |a| {
      if i >= |a| {
        assert (a + b)[i] == b[i - |a|];
      }
    }
    ReloadsOnly(a, b);
  }

  lemma ReloadsOnly(a: seq<Entry>, b: seq<Entry>)
    requires forall i :: 0 <= i < |a| ==> a[i].action != Reload
    requires forall i :: 0 <= i < |b| ==> b[i].action == Reload
    ensures Filter(a + b, IsReload) == b
  {
    assert Filter(a, IsReload) == [] by {
      assert forall i :: 0 <= i < |a| ==> !IsReload(a[i]);
      FilterAllOrNone(a, IsReload);
    }
    assert Filter(b, IsReload) == b by {
      assert forall i :: 0 <= i < |b| ==> IsReload(b[i]);
      FilterAllOrNone(b, IsReload);
    }
    FilterConcat(a, b, IsReload);
  }

  lemma AllNotReload(unloads: seq<Entry>, sorted: seq<Entry>)
    requires forall e :: e in unloads ==> e.action != Reload
    requires multiset(sorted) == multiset(unloads)
    ensures forall i :: 0 <= i < |sorted| ==> sorted[i].action != Reload
  {
    forall i | 0 <= i < |sorted| ensures sorted[i].action != Reload {
      assert sorted[i] in multiset(unloads);
    }
  }

  lemma AllReload(reloads: seq<Entry>)
    requires forall e :: e in reloads ==> e.action == Reload
    ensures forall i :: 0 <= i < |reloads| ==> reloads[i].action == Reload
  {
  }

  /** `get_sorted_operations`: every step's entries in replay order, step
      after step. */
  function SortedOperations(log: seq<Step>): (r: seq<Entry>)
    ensures multiset(r) == multiset(AllEntries(log))
    ensures |r| == |AllEntries(log)|
  {
    if |log| == 0 then []
    else SortedOperations(log[..|log| - 1]) + StepOrder(log[|log| - 1])
  }

  /** The replay order of the first `m` steps is a prefix of the whole. */
  lemma {:induction false} SortedOperationsPrefix(log: seq<Step>, m: nat)
    requires m <= |log|
    ensures var whole := SortedOperations(log);
      var part := SortedOperations(log[..m]);
      |part| <= |whole| && whole[..|part|] == part
  {
    if m < |log| {
      var pre := log[..|log| - 1];
      SortedOperationsPrefix(pre, m);
      assert pre[..m] == log[..m];
    } else {
      assert log[..m] == log;
    }
  }

  /** `y` occurs in `whole` starting at index `start`. */
  predicate BlockAt<T(==)>(whole: seq<T>, start: int, y: seq<T>) {
    0 <= start && start + |y| <= |whole| && whole[start..start + |y|] == y
  }

  /** The elements of `z`, in some order, occur in `whole` starting at index
      `start`. */
  predicate BlockRearranges<T(==)>(whole: seq<T>, start: int, z: seq<T>) {
    0 <= start && start + |z| <= |whole| && multiset(whole[start..start + |z|]) == multiset(z)
  }

  /** Steps keep their order: the entries of step `i` fill the block right
      after those of the earlier steps, and that block is the step's own
      entries in replay order. */
  lemma SortedOperationsBlocks(log: seq<Step>, i: nat)
    requires i < |log|
    ensures BlockAt(SortedOperations(log), |AllEntries(log[..i])|, StepOrder(log[i]))
  {
    SortedOperationsPrefix(log, i + 1);
    SortedOperationsStep(log, i);
    BlockOfPrefix(SortedOperations(log), SortedOperations(log[..i]), StepOrder(log[i]));
  }

  lemma SortedOperationsStep(log: seq<Step>, i: nat)
    requires i < |log|
    ensures SortedOperations(log[..i + 1]) == SortedOperations(log[..i]) + StepOrder(log[i])
  {
    var upto := log[..i + 1];
    assert upto[..|upto| - 1] == log[..i] && upto[|upto| - 1] == log[i];
  }

  lemma BlockOfPrefix<T>(whole: seq<T>, x: seq<T>, y: seq<T>)
    requires |x + y| <= |whole| && whole[..|x + y|] == x + y
    ensures BlockAt(whole, |x|, y)
  {
    assert whole[|x|..|x| + |y|] == (x + y)[|x|..];
  }

  /** Each step's block holds exactly that step's entries. */
  lemma SortedOperationsBlockEntries(log: seq<Step>, i: nat)
    requires i < |log|
    ensures BlockRearranges(SortedOperations(log), |AllEntries(log[..i])|, log[i].entries)
  {
    SortedOperationsBlocks(log, i);
    BlockRearranged(SortedOperations(log), |AllEntries(log[..i])|, StepOrder(log[i]), log[i].entries);
  }

  lemma BlockRearranged<T>(whole: seq<T>, start: int, y: seq<T>, z: seq<T>)
    requires BlockAt(whole, start, y)
    requires |y| == |z| && multiset(y) == multiset(z)
    ensures BlockRearranges(whole, start, z)
  {
  }

  function NegLoadOrder(p: PlacedItem): int {
    -p.loadOrder
  }

  /** `packed_items.sort(key=load_order, reverse=True)`: last loaded first;
      the sort is stable, so records with equal load orders keep their
      order. The dictionary and the Reload lookup below read this order. */
  function ReplayOrder(packed: seq<PlacedItem>): (r: seq<PlacedItem>)
    ensures multiset(r) == multiset(packed)
    ensures forall i, j :: 0 <= i < j < |r| ==> r[j].loadOrder <= r[i].loadOrder
    ensures forall k :: WithKey(r, NegLoadOrder, k) == WithKey(packed, NegLoadOrder, k)
  {
    IntLessIsStrictTotalOrder();
    SortBySorted(packed, NegLoadOrder, IntLess);
    forall k ensures WithKey(SortBy(packed, NegLoadOrder, IntLess), NegLoadOrder, k) == WithKey(packed, NegLoadOrder, k) {
      SortByStable(packed, NegLoadOrder, IntLess, k);
    }
    var r := SortBy(packed, NegLoadOrder, IntLess);
    assert forall i, j :: 0 <= i < j < |r| ==> !IntLess(NegLoadOrder(r[j]), NegLoadOrder(r[i]));
    r
  }

  /** The dictionary of items still in the container, keyed by item id. */
  type Live = map<int, PlacedItem>

  /** `{item['id']: item for item in packed_items}`: a later item with the
      same id replaces an earlier one. */
  function Positions(packed: seq<PlacedItem>): (r: Live)
    ensures forall id :: id in r ==> r[id] in packed && r[id].id == id
  {
    if |packed| == 0 then map[]
    else
      var last := packed[|packed| - 1];
      Positions(packed[..|packed| - 1])[last.id := last]
  }

  /** The last packed item with a given id is the one the dictionary keeps. */
  lemma {:induction false} PositionsLast(packed: seq<PlacedItem>, i: int)
    requires 0 <= i < |packed|
    requires forall j :: i < j < |packed| ==> packed[j].id != packed[i].id
    ensures packed[i].id in Positions(packed) && Positions(packed)[packed[i].id] == packed[i]
    decreases |packed|
  {
    var pre := packed[..|packed| - 1];
    if i < |packed| - 1 {
      forall j | i < j < |pre| ensures pre[j].id != pre[i].id {
        assert pre[j] == packed[j] && pre[i] == packed[i];
      }
      PositionsLast(pre, i);
      assert pre[i] == packed[i];
    }
  }

  /** Every packed item's id is a key of the initial dictionary, and nothing
      else is. */
  lemma {:induction false} PositionsKeys(packed: seq<PlacedItem>)
    ensures forall id :: id in Positions(packed) <==> exists i :: 0 <= i < |packed| && packed[i].id == id
  {
    if |packed| > 0 {
      var pre := packed[..|packed| - 1];
      PositionsKeys(pre);
      forall id ensures id in Positions(packed) <==> exists i :: 0 <= i < |packed| && packed[i].id == id {
        if id in Positions(pre) {
          var i :| 0 <= i < |pre| && pre[i].id == id;
          assert packed[i] == pre[i];
        }
        if exists i :: 0 <= i < |packed| && packed[i].id == id {
          var i :| 0 <= i < |packed| && packed[i].id == id;
          if i < |pre| {
            assert pre[i] == packed[i];
          }
        }
      }
    }
  }

  /** Index `k` holds the first packed item with the id. */
  predicate FirstIdAt(packed: seq<PlacedItem>, k: int, id: int)
    requires 0 <= k < |packed|
  {
    packed[k].id == id && forall j :: 0 <= j < k ==> packed[j].id != id
  }

  function HasId(id: int): PlacedItem -> bool {
    (p: PlacedItem) => p.id == id
  }

  /** `next(x for x in packed_items if x['id'] == item_id)`: the first packed
      item with the id; `None` where the source's `next` raises
      `StopIteration`. */
  function FirstWithId(packed: seq<PlacedItem>, id: int): (r: Option<PlacedItem>)
    ensures r.None? <==> forall i :: 0 <= i < |packed| ==> packed[i].id != id
    ensures r.Some? ==> r.value.id == id
    ensures r.Some? ==> exists k :: 0 <= k < |packed| && packed[k] == r.value && FirstIdAt(packed, k, id)
  {
    match FirstMatch(packed, HasId(id))
    case None => None
    case Some(k) => Some(packed[k])
  }

  predicate UniqueIds(packed: seq<PlacedItem>) {
    forall i, j :: 0 <= i < j < |packed| ==> packed[i].id != packed[j].id
  }

  /** With distinct ids, the item a Reload brings back is the one the
      dictionary started with. */
  lemma {:induction false} PositionsIsFirst(packed: seq<PlacedItem>)
    requires UniqueIds(packed)
    ensures forall id :: id in Positions(packed) ==> FirstWithId(packed, id) == Some(Positions(packed)[id])
  {
    forall id | id in Positions(packed) ensures FirstWithId(packed, id) == Some(Positions(packed)[id]) {
      var q := Positions(packed)[id];
      var a :| 0 <= a < |packed| && packed[a] == q;
      var f := FirstWithId(packed, id);
      assert f.Some? by {
        assert packed[a].id == id;
      }
      var k :| 0 <= k < |packed| && packed[k] == f.value && FirstIdAt(packed, k, id);
      assert k == a;
    }
  }

  /** The replay of one operation (the loop body at lines 75-84):
      Unload and Temporarily unload drop the id if present; Reload puts back
      the first packed item with that id, and fails where none exists. */
  function ReplayStep(live: Live, packed: seq<PlacedItem>, e: Entry): (r: Option<Live>)
    ensures r.None? <==> e.action == Reload && FirstWithId(packed, e.itemId).None?
    ensures r.Some? ==> (e.itemId in r.value <==> e.action == Reload)
    ensures r.Some? && e.action == Reload ==> Some(r.value[e.itemId]) == FirstWithId(packed, e.itemId)
    ensures r.Some? ==> forall k :: k != e.itemId ==> (k in r.value <==> k in live)
    ensures r.Some? ==> forall k :: k != e.itemId && k in live ==> r.value[k] == live[k]
  {
    match e.action
    case Reload =>
      (match FirstWithId(packed, e.itemId)
       case None => None
       case Some(p) => Some(live[e.itemId := p]))
    case _ =>
      if e.itemId in live then Some(live - {e.itemId}) else Some(live)
  }

  /** The operations replayed one after the other from `live`. */
  function Replay(live: Live, packed: seq<PlacedItem>, ops: seq<Entry>): Option<Live>
  {
    if |ops| == 0 then Some(live)
    else
      match Replay(live, packed, ops[..|ops| - 1])
      case None => None
      case Some(s) => ReplayStep(s, packed, ops[|ops| - 1])
  }

  /** Temporarily unloading an item and reloading it restores the dictionary
      when the item in it is the one a Reload finds. */
  lemma TempThenReload(live: Live, packed: seq<PlacedItem>, out: Entry, back: Entry)
    requires out.action == TemporarilyUnload && back.action == Reload && out.itemId == back.itemId
    requires out.itemId in live && FirstWithId(packed, out.itemId) == Some(live[out.itemId])
    ensures Replay(live, packed, [out, back]) == Some(live)
  {
    assert [out, back][..1] == [out];
    assert [out][..0] == [];
    var mid := ReplayStep(live, packed, out);
    assert Replay(live, packed, [out]) == mid;
    var r := ReplayStep(mid.value, packed, back);
    assert Replay(live, packed, [out, back]) == r;
    assert forall k :: k in r.value <==> k in live;
    assert forall k :: k in live ==> r.value[k] == live[k];
    assert r.value == live;
  }

  /** The last action logged for an item id, if any. */
  function LastAction(ops: seq<Entry>, id: int): Option<Action>
  {
    if |ops| == 0 then None
    else if ops[|ops| - 1].itemId == id then Some(ops[|ops| - 1].action)
    else LastAction(ops[..|ops| - 1], id)
  }

  /** A replay fails exactly when some Reload names an id no packed item has,
      whatever the starting dictionary. */
  predicate Replayable(packed: seq<PlacedItem>, ops: seq<Entry>) {
    forall i :: 0 <= i < |ops| && ops[i].action == Reload ==> FirstWithId(packed, ops[i].itemId).Some?
  }

  lemma {:induction false} ReplayFailsOnlyOnMissing(live: Live, packed: seq<PlacedItem>, ops: seq<Entry>)
    ensures Replay(live, packed, ops).Some? <==> Replayable(packed, ops)
  {
    if |ops| > 0 {
      var pre := ops[..|ops| - 1];
      ReplayFailsOnlyOnMissing(live, packed, pre);
      assert forall i :: 0 <= i < |pre| ==> pre[i] == ops[i];
    }
  }

  /** After a replay, an id the operations never mention keeps its entry,
      and an id they mention is present exactly when its last operation is a
      Reload, holding the item that Reload finds. */
  lemma {:induction false} ReplayEffect(live: Live, packed: seq<PlacedItem>, ops: seq<Entry>)
    requires Replay(live, packed, ops).Some?
    ensures var t := Replay(live, packed, ops).value;
      forall k :: && (LastAction(ops, k).None? ==> (k in t <==> k in live) && (k in live ==> t[k] == live[k]))
                  && (LastAction(ops, k).Some? ==> (k in t <==> LastAction(ops, k) == Some(Reload)))
                  && (LastAction(ops, k).Some? && k in t ==> Some(t[k]) == FirstWithId(packed, k))
  {
    if |ops| > 0 {
      var pre := ops[..|ops| - 1];
      ReplayEffect(live, packed, pre);
    }
  }

  /** Replaying the same operations a second time changes nothing. */
  lemma ReplayTwice(live: Live, packed: seq<PlacedItem>, ops: seq<Entry>)
    requires Replay(live, packed, ops).Some?
    ensures Replay(Replay(live, packed, ops).value, packed, ops) == Replay(live, packed, ops)
  {
    var t := Replay(live, packed, ops).value;
    ReplayFailsOnlyOnMissing(live, packed, ops);
    ReplayFailsOnlyOnMissing(t, packed, ops);
    var u := Replay(t, packed, ops).value;
    ReplayEffect(live, packed, ops);
    ReplayEffect(t, packed, ops);
    assert forall k :: k in u <==> k in t;
    assert forall k :: k in u ==> u[k] == t[k];
    assert u == t;
  }

  /** The dictionary after the first `n` animation frames of the unload
      phase. `item_positions` is a global that each frame mutates in place,
      and frame `f` replays operations 0..f again on what the previous
      frames left. */
  function AfterFrames(init: Live, packed: seq<PlacedItem>, ops: seq<Entry>, n: nat): Option<Live>
    requires n <= |ops|
  {
    if n == 0 then Some(init)
    else
      match AfterFrames(init, packed, ops, n - 1)
      case None => None
      case Some(s) => Replay(s, packed, ops[..n])
  }

  /** Each frame shows the dictionary after replaying its operations once:
      the repeated replays of the shared dictionary do no harm. */
  lemma {:induction false} FramesShowPrefix(init: Live, packed: seq<PlacedItem>, ops: seq<Entry>, n: nat)
    requires n <= |ops|
    ensures AfterFrames(init, packed, ops, n) == Replay(init, packed, ops[..n])
  {
    if n > 0 {
      FramesShowPrefix(init, packed, ops, n - 1);
      assert ops[..n][..n - 1] == ops[..n - 1];
      var before := Replay(init, packed, ops[..n - 1]);
      if before.Some? {
        var t := before.value;
        ReplayTwice(init, packed, ops[..n - 1]);
        assert Replay(t, packed, ops[..n]) == ReplayStep(t, packed, ops[n - 1]);
      }
    }
  }

  /** From the initial dictionary of packed items with distinct ids,
      temporarily unloading an item and reloading it gives the dictionary
      back. */
  lemma InitialTempThenReload(packed: seq<PlacedItem>, out: Entry, back: Entry)
    requires UniqueIds(packed)
    requires out.action == TemporarilyUnload && back.action == Reload && out.itemId == back.itemId
    requires exists i :: 0 <= i < |packed| && packed[i].id == out.itemId
    ensures Replay(Positions(packed), packed, [out, back]) == Some(Positions(packed))
  {
    PositionsKeys(packed);
    PositionsIsFirst(packed);
    TempThenReload(Positions(packed), packed, out, back);
  }
}
