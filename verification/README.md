# 3D bin packing with unloading constraints, in Dafny

This project models the core of a set of Python scripts. They pack boxes into a truck container, reorder a packing into a loading sequence, and simulate unloading zone by zone. The model also proves properties of those operations. Everything is pure functions over immutable datatypes:

- **Boxes** are integer corners with extents (`Geometry`).
- **Occupancy grids** are sets of occupied unit cells (`OccupancyGrid`).
- **Nested `for` loops** that stop at the first hit, or keep the best score, are recursive scans over an explicitly ordered enumeration of the grid (`Scan`).
- **Python's stable `sorted`** is one generic stable insertion sort (`Sorting`).

The modules follow the scripts:

| module | script | what it is |
|---|---|---|
| `PlacedList`, `BottomLeftFill` | bl_ffhdc.py | bottom-left-fill packer. It tests each candidate against the list of placed boxes: bounds, no interior overlap, and contact support above the floor. |
| `PlacedList`, `Heuristics` | heuristics.py | first-fit packer with a best-of-N loop over item orders |
| `Subvolume` | subvolume.py | two-section grid packer with an 80% support rule |
| `IntParse` | subvolume.py | Python's base-10 `int(str)`, which turns a location into its PO number |
| `GridLoading`, `BestFitLoader` | loading/loaded6.py | grid loader that scores each placement by its adjacent occupied faces |
| `GridLoading`, `FirstFitLoader` | loading/loaded3.py | grid loader that takes the first rotation with a first-fit corner |
| `RowFiller` | loading/loaded.py | cursor row filler |
| `Rearrange` | rearrange_order.py | load-order rearrangement: the large section, then depth layers |
| `Unload` | unload.py | unloading state machine over zones po1..po5 |
| `Replay` | unloading_visualize.py | replay order of the unload log, and the dictionary update per replayed operation |
| `Barcode` | barcode_reader.py | mapping-id assignment for scanned box ids |

Inputs that the scripts read from files, from the keyboard or from `random` are parameters here:

- container sizes;
- item lists, box records and specs;
- the shuffled item orders;
- the scanned barcodes.

The fixed data of loaded3.py and loaded.py are constants.

- **Blocking in unload.py.** `is_blocking` requires the two height ranges to overlap, so a box resting exactly on top of another does NOT block it (`Unload.RestingOnTopDoesNotBlock`).
- **Support.** The two placed-list packers treat support as any contact with positive area. subvolume.py uses an 80% cell-count rule.
- **The visualizer's dictionary.** `item_positions` is a global that every animation frame mutates and then replays again from the first operation. The model proves that this repeated replay shows the same thing as a single replay (`Replay.FramesShowPrefix`).

## Model

| member | source | states |
|---|---|---|
| Items.Rotations | bl_ffhdc.py:14-22 | six orientations, the first being the item's own (w, l, h); which six is stated by the next row |
| Items.RotationsAreAllPermutations | bl_ffhdc.py:14-22 | a size is one of the six orientations if and only if it reorders the three extents |
| Items.RotationsPreserveVolume | heuristics.py:14-22 | every orientation reorders the extents and keeps the volume |
| Geometry.OverlapsSymmetric | bl_ffhdc.py:87-93 | the separating-axis overlap test is symmetric |
| Geometry.OverlapsIffSharedCell | bl_ffhdc.py:87-93 | two positive boxes fail the separating-axis test exactly when they share a unit cell; touching faces do not overlap |
| Geometry.DisjointVolumeIsCellCount | bl_ffhdc.py:117-118 | pairwise non-overlapping boxes cover as many cells as their summed orientation volumes |
| Geometry.PackedVolumeBound | bl_ffhdc.py:117-120 | non-overlapping positive boxes inside the container have summed volume between 0 and the container volume |
| PlacedList.AppendKeepsWellPacked | bl_ffhdc.py:77-109 | appending a record that passed `can_place_item` at a scanned corner, with the next load order, keeps every box inside, pairwise non-overlapping, supported by an earlier box when above the floor, and numbered 1..k |
| PlacedList.FindBottomLeftPosition | bl_ffhdc.py:68-75 | the result is feasible and no feasible scanned corner precedes it in (z, y, x) order; None exactly when no scanned corner is feasible |
| PlacedList.Utilization | bl_ffhdc.py:117-120 | utilisation times container volume is the summed orientation volume; None exactly for a zero-volume container, where the source divides by zero |
| PlacedList.UtilizationInUnitInterval | bl_ffhdc.py:117-120 | a well-packed list of positive boxes in a positive container has utilisation in [0, 1] |
| BottomLeftFill.IsBetterPositionIsScanOrder | bl_ffhdc.py:111-115 | `is_better_position` is the (z, y, x) scan order: irreflexive, transitive, and total on distinct positions |
| BottomLeftFill.BestCorner | bl_ffhdc.py:40-48 | the kept orientation has a corner that no other orientation's corner strictly beats, and it strictly beats every earlier one; None exactly when no orientation has a corner |
| BottomLeftFill.CornersBeatScan | bl_ffhdc.py:43-48 | the kept corner is feasible, and no feasible scanned corner of any orientation is strictly better |
| BottomLeftFill.PackStep | bl_ffhdc.py:38-64 | an item is either appended as a placement of itself with the next load order at a feasible scanned corner, or added to the unplaced list with the packed list unchanged |
| BottomLeftFill.PackStepIsLowest | bl_ffhdc.py:43-64 | a placed item's corner is not beaten by any feasible corner of any orientation; an item is unplaced only when no orientation fits at any scanned corner |
| BottomLeftFill.StepWellPacked | bl_ffhdc.py:50-60 | appending the step's record keeps the list inside, non-overlapping, supported and numbered 1..k |
| BottomLeftFill.StepKeepsInvariant | bl_ffhdc.py:50-64 | one item step keeps the list well packed and keeps every item accounted for exactly once, as placed or unplaced |
| BottomLeftFill.PackInOrder | bl_ffhdc.py:37-64 | after the item loop the list is well packed, every item appears once (placed or unplaced), and the counts add up |
| BottomLeftFill.PackingOrder | bl_ffhdc.py:35 | the items are permuted into non-increasing largest extent, and items with equal largest extents keep their input order |
| BottomLeftFill.PackItems | bl_ffhdc.py:33-66 | the result is well packed, every record is a rotation of an input item, every item id is placed or unplaced exactly once, and the utilisation is that of the placed boxes |
| BottomLeftFill.PackItemsUtilizationBounds | bl_ffhdc.py:117-120 | with a positive container and positive items, the reported utilisation lies in [0, 1] |
| Heuristics.FirstFeasibleRotation | heuristics.py:55-76 | the chosen orientation has a feasible corner and no earlier orientation has one; None exactly when none has |
| Heuristics.PackStep | heuristics.py:53-79 | the packed list grows by at most one record, a placement of the item with the next load order at a feasible scanned corner |
| Heuristics.PackStepIsFirstFit | heuristics.py:55-76 | the record uses the first orientation in list order that fits, at its first feasible corner in (z, y, x) order; the item is dropped exactly when no orientation fits anywhere |
| Heuristics.StepWellPacked | heuristics.py:83-110 | appending the step's record keeps the list inside, non-overlapping, supported and numbered 1..k |
| Heuristics.PackItems | heuristics.py:49-81 | one run yields a well-packed list, no longer than the items, in which every record is a placement of an input item and no id is placed more often than it occurs among the items |
| Heuristics.StepKeepsInvariant | heuristics.py:55-79 | one item step keeps that run invariant |
| Heuristics.BestRun | heuristics.py:45-47 | the kept utilisation is at least every run's and at least 0; it comes from the first run that attains it; with no run above 0 the kept packing is empty with utilisation 0 |
| Heuristics.BestNeverDecreases | heuristics.py:36-47 | the kept utilisation after a prefix of the runs never exceeds the final one |
| Heuristics.Runs | heuristics.py:37-41 | one run per given item order, each well packed from its order, with its utilisation as computed by `calculate_capacity_utilization` |
| Heuristics.PackItemsWithPermutations | heuristics.py:36-47 | when every order is a permutation of the items, the kept packing is well packed, uses only the items, each at most once, and no run's utilisation exceeds the kept one |
| OccupancyGrid.Occupy | loading/loaded6.py:74-77 | after `place_box` a cell is occupied exactly when it was occupied before or lies in the box |
| OccupancyGrid.FreeIffNoOverlap | loading/loaded6.py:67-72 | a positive box shares no cell with the cells of positive boxes exactly when it overlaps none of them, so the grid test and the pairwise test agree |
| OccupancyGrid.OccupyKeepsMirror | loading/loaded6.py:74-77 | marking a positive box placed on empty cells keeps the grid equal to the union of the loaded boxes and adds exactly its volume |
| OccupancyGrid.OccupiedIsLoadedVolume | loading/loaded6.py:138 | the occupied cell count of a mirroring grid is the summed volume of the loaded boxes |
| GridLoading.RotateSize | loading/loaded6.py:40-53 | rotations 0..5 give the six orientations in the source's order; any other rotation gives None, as the `elif` chain falls through |
| GridLoading.RotateSizeIsPermutation | loading/loaded3.py:38-51 | some rotation 0..5 yields t exactly when t reorders the extents of s |
| GridLoading.AddBox | loading/loaded6.py:136-138 | the box is appended, the grid gains exactly its cells, and the occupied volume grows by its volume |
| GridLoading.AddKeepsTracks | loading/loaded3.py:96-99 | loading a positive box where `can_place` holds keeps the grid equal to the union of the pairwise disjoint, in-container boxes, with `occupied_volume` equal to the occupied cell count |
| GridLoading.OccupiedVolume | loading/loaded6.py:138 | under that invariant `occupied_volume` is the summed volume of the loaded boxes, between 0 and the container volume |
| GridLoading.EmptyPercentage | loading/loaded6.py:145-147 | the percentage times the container volume is 100 times the empty volume |
| GridLoading.EmptyPercentageBounds | loading/loaded3.py:134-136 | for a valid occupied volume the percentage lies in [0, 100]; it is 100 exactly when nothing is loaded and 0 exactly when the container is full |
| GridLoading.SpecStep | loading/loaded6.py:126-142 | appending copies of the current spec to boxes that came from earlier specs keeps every box traceable to a spec |
| BestFitLoader.ExpandSpecs | loading/loaded6.py:15-17 | one spec of count 1 per record, in record order, with the record's size, location and weight |
| BestFitLoader.SortSpecs | loading/loaded6.py:56 | the specs are permuted into order by (location, -volume, -weight), and specs with equal keys keep their input order |
| BestFitLoader.SortSpecsOrder | loading/loaded6.py:56 | in the sorted specs the locations never decrease, and within one location the volumes never increase |
| BestFitLoader.AdjacentFacesBounds | loading/loaded6.py:79-95 | the adjacency score lies between 0 and the box's whole surface 2(dy·dz + dx·dz + dx·dy) |
| BestFitLoader.AdjacentFacesEmpty | loading/loaded6.py:79-95 | against an empty grid a positive box scores 0; container walls add nothing |
| BestFitLoader.AdjacentFacesMonotone | loading/loaded6.py:79-95 | occupying more cells never lowers a placement's score |
| BestFitLoader.BestSpot | loading/loaded6.py:104-113 | for one rotation the kept corner fits and has the maximal score, and every earlier feasible corner in (y, x, z) order scores strictly less; None exactly when no corner fits |
| BestFitLoader.FindBestFit | loading/loaded6.py:97-115 | a returned (rotation, corner) is a rotation index 0..5 and a scanned corner where that rotation fits |
| BestFitLoader.FindBestFitIsBest | loading/loaded6.py:97-115 | the returned pair has the maximal score over all feasible pairs, and every pair the scan meets earlier scores strictly less; (None, None) exactly when nothing fits |
| BestFitLoader.PlaceCopy | loading/loaded6.py:131-139 | None exactly when the best-fit search finds nothing; otherwise one box is appended, at the corner the search returned, in the rotation it returned, where that rotation fits the grid |
| BestFitLoader.LoadCopies | loading/loaded6.py:131-142 | the copies loop appends at most `count` boxes, each a rotation of the spec's size carrying its location; when it appends fewer, one more copy finds no place (the `break`) |
| BestFitLoader.RepeatStops | loading/loaded6.py:131-142 | a repeated placement step that appends one box per success ends early only where the step fails |
| BestFitLoader.LoadCopiesTracks | loading/loaded6.py:131-142 | every copy lands in a feasible place, so the grid invariant survives |
| GridLoading.LoadEach | loading/loaded6.py:126-142 | the loop over the sorted specs keeps the earlier boxes and adds at most the total count, given a copies loop that keeps earlier boxes and adds at most `count` boxes of its spec |
| GridLoading.LoadEachTracks | loading/loaded3.py:86-103 | when the copies loop keeps the grid invariant, so does the loop over all specs |
| GridLoading.LoadEachFromSpecs | loading/loaded6.py:126-142 | every box the loop over the specs loads comes from one of the specs |
| BestFitLoader.CopiesLoopFacts | loading/loaded6.py:131-142 | the best-fit copies loop, run for each spec's count, keeps earlier boxes, adds at most `count` boxes of the spec, and keeps the grid invariant |
| BestFitLoader.LoadOrder | loading/loaded6.py:56 | the loading order is a permutation of the records' specs |
| BestFitLoader.SimulateFacts | loading/loaded6.py:120-148 | one simulation keeps the grid invariant, loads at most one box per record, each from a record, with `occupied_volume` the loaded volume, and reports an empty percentage in [0, 100] |
| FirstFitLoader.SortSpecs | loading/loaded3.py:54 | the specs are permuted into order by (label, -volume), and specs with equal keys keep their input order |
| FirstFitLoader.FindPosition | loading/loaded3.py:77-84 | the result is a scanned corner where the box fits, and no earlier corner in (y, x, z) order fits; None exactly when no corner fits |
| FirstFitLoader.FirstRotation | loading/loaded3.py:93-101 | a returned rotation 0..5 fits at the returned scanned corner |
| FirstFitLoader.FirstRotationIsFirstFit | loading/loaded3.py:93-101 | no earlier rotation fits anywhere and no earlier corner fits the chosen rotation; nothing is taken exactly when no rotation fits |
| FirstFitLoader.PlaceCopy | loading/loaded3.py:93-103 | a copy is skipped exactly when the rotation loop finds no rotation with a position; otherwise one box is appended, with the first fitting rotation's size at its first-fit corner and the spec's label |
| FirstFitLoader.PlaceCopyIsFirstFit | loading/loaded3.py:93-103 | the appended box fits, no earlier rotation fits anywhere and no earlier (y, x, z) corner fits the chosen rotation; a copy is skipped exactly when no rotation fits anywhere |
| FirstFitLoader.LoadCopies | loading/loaded3.py:91-103 | at most `count` boxes are appended, each a rotation of the spec's size with its label; some box is added exactly when `count` is positive and the first copy fits, and that box is the first copy's placement; fewer than `count` boxes means no further copy fits in the final state |
| FirstFitLoader.NoBreakNeeded | loading/loaded3.py:91-103 | carrying on after a copy that fits nowhere loads the same boxes as breaking off, because a failure leaves the grid unchanged |
| FirstFitLoader.FailedCopiesChangeNothing | loading/loaded3.py:102-103 | when no rotation fits, the remaining copies change nothing |
| FirstFitLoader.LoadCopiesTracks | loading/loaded3.py:91-101 | loading copies keeps the grid invariant |
| FirstFitLoader.CopiesLoopFacts | loading/loaded3.py:91-103 | the first-fit copies loop, run for each spec's count, keeps earlier boxes, adds at most `count` boxes of the spec, and keeps the grid invariant |
| FirstFitLoader.RunFacts | loading/loaded3.py:86-136 | a run keeps the invariant, every box comes from a spec, `occupied_volume` is the loaded volume, and the empty percentage is in [0, 100] |
| FirstFitLoader.ScriptRunFacts | loading/loaded3.py:7-17 | the script's own specs in its 6 x 6 x 6 container satisfy the run facts |
| RowFiller.SortSpecs | loading/loaded.py:40 | the specs are permuted into non-decreasing label order |
| RowFiller.SortSpecsStable | loading/loaded.py:40 | specs with the same label keep their input order |
| RowFiller.NextCursor | loading/loaded.py:60-68 | with a positive width, row depth and layer height the cursor moves strictly forward in (z, y, x) order; it stays in the row only where one more box of that width still fits in x, and otherwise returns to x = 0 |
| RowFiller.Step | loading/loaded.py:54-68 | a box that does not fit at the cursor is skipped and changes nothing; one that fits is appended unrotated at the cursor |
| RowFiller.FillCopies | loading/loaded.py:53-68 | at most `count` boxes are appended, each with the spec's size and label |
| RowFiller.RunInside | loading/loaded.py:48-68 | under either advance rule, every box the filler loads lies inside the container and carries the size and label of one of the specs |
| RowFiller.FillAll | loading/loaded.py:48-68 | the spec loop keeps the earlier boxes and adds at most the total count |
| RowFiller.FillAllInside | loading/loaded.py:54-58 | the fit guard keeps every loaded box inside the container |
| RowFiller.FillAllFromSpecs | loading/loaded.py:48-58 | every box loaded by the spec loop comes from one of the specs |
| RowFiller.FillAllLayered | loading/loaded.py:60-68 | under the corrected rule every loaded box lies behind the cursor's row and layer, and the boxes stay pairwise disjoint |
| RowFiller.AsWrittenOverlaps | loading/loaded.py:62-64 | a concrete run in which the as-written filler places a box inside an earlier one (see Findings) |
| RowFiller.CorrectedRunDisjoint | loading/loaded.py:48-68 | with row and layer advances taken from the deepest and tallest box so far, no two loaded boxes overlap |
| Subvolume.LargeSectionWidth | subvolume.py:26 | the split is 7/10 of the width truncated toward zero, within the width |
| Subvolume.Orientations | subvolume.py:14-19 | three orientations, each one of the six rotations |
| Subvolume.SupportedArea | subvolume.py:88-93 | the occupied cells under the footprint never exceed the footprint area |
| Subvolume.SupportRatio | subvolume.py:95 | the integer test 5·supported >= 4·area is the source's ratio test supported/area >= 0.8 |
| Subvolume.FirstSpot | subvolume.py:57-60 | the result lies in the section's scan and passes `can_place_item`, and no earlier corner in (x, y, z) order passes; None exactly when none passes |
| Subvolume.Choice | subvolume.py:56-60 | a chosen orientation is one of the item's three and its corner lies in the section scan and passes `can_place_item` |
| Subvolume.PlaceItem | subvolume.py:55-71 | the state is unchanged, or gains one record placing the item with load order len+1, with the grid gaining exactly its cells |
| Subvolume.PlaceItemFeasible | subvolume.py:73-95 | a placed record lies within the container, on empty cells, and rests on the floor or on at least 80% occupied cells |
| Subvolume.PlaceItemIsFirstFit | subvolume.py:55-71 | earlier orientations have no spot and earlier corners of the chosen one do not pass; the state is unchanged exactly when no orientation has a spot |
| Subvolume.PlaceAll | subvolume.py:44-53 | a section pass adds at most one record per item, each lying wholly within [start_x, end_x) |
| Subvolume.PlaceItemKeepsConsistent | subvolume.py:61-69 | placing an item keeps the grid equal to the union of the placed boxes, which stay disjoint, inside and supported, with load order equal to the 1-based index |
| Subvolume.ExtendKeepsConsistent | subvolume.py:97-101 | marking a placed box's cells keeps the grid equal to the union of the placed boxes |
| Subvolume.PlaceAllConsistent | subvolume.py:44-53 | a whole section pass keeps that invariant |
| Subvolume.PlaceAllAccounts | subvolume.py:44-53 | every record a pass adds is a placement of one of its items, each at most once |
| IntParse.ParseGroups | subvolume.py:43 | a digit string parses exactly when it is non-empty and every underscore sits between two digits |
| IntParse.DigitGroupsSnoc | subvolume.py:43 | a digit string ending in a digit is well formed exactly when it is without that digit and its underscore |
| IntParse.Strip | subvolume.py:43 | `str.strip` leaves no whitespace at either end and removes only whitespace, from the ends |
| IntParse.ParseLiteral | subvolume.py:43 | a stripped literal parses exactly when it is digit groups with at most one leading sign |
| IntParse.ParseInt | subvolume.py:43 | `int(s)` succeeds exactly when the stripped text is an optionally signed run of digit groups |
| IntParse.ParseGroupsShow | subvolume.py:43 | parsing the decimal rendering of a natural number gives it back |
| IntParse.ParseIntShow | subvolume.py:43 | `int(str(n)) == n` for every integer, negative ones included |
| IntParse.ParseIntPadded | subvolume.py:43 | whitespace around the text never changes what `int` returns |
| Subvolume.PoNumber | subvolume.py:43 | the PO number is `int(location[2:])`: it exists exactly when the text after the first two characters is an integer literal, and never for locations shorter than 2 |
| Subvolume.PoNumberShow | subvolume.py:43 | any two characters followed by the rendering of an integer give that integer as PO number |
| Subvolume.PoNumberNegative | subvolume.py:43 | "po-1" has PO number -1, so the sort accepts it |
| Subvolume.LargeOrder | subvolume.py:43 | the large-section items are permuted into ascending PO-number order, and items with equal PO numbers keep their input order |
| Subvolume.SectionsPartition | subvolume.py:33-37 | the two sections together hold every item exactly once |
| Subvolume.PackItems | subvolume.py:30-43 | `pack_items` fails exactly when some large-section item's location has no PO number, as the sort key raises |
| Subvolume.PackItemsInvariant | subvolume.py:30-40 | the final packing keeps the grid invariant, places only input items, each at most once, and the occupied cell count is the loaded volume, at most the container's |
| Subvolume.PackItemsSections | subvolume.py:39-40 | the large-section records come first and lie in [0, split); the rest lie in [split, width) |
| Rearrange.LargeOrder | rearrange_order.py:18 | the large section is permuted into non-decreasing load order, and records with equal load orders keep their order |
| Rearrange.SmallOrder | rearrange_order.py:23 | the small section is permuted into descending y, with ties in ascending z, and items with equal (y, z) keep their input order |
| Rearrange.ByHeight | rearrange_order.py:58 | the absorbed items are permuted into ascending z, and items at equal z keep their input order |
| Rearrange.BackIndex | rearrange_order.py:33 | `back_item` is the first item on the floor, or the first item when none is on the floor |
| Rearrange.RemoveAt | rearrange_order.py:34 | removing `back_item` takes out exactly that one element |
| Rearrange.Open | rearrange_order.py:36-43 | `back_item` opens a new layer exactly when its distance from the back wall exceeds the current layer's, closing a non-empty current layer; otherwise it joins the current layer |
| Rearrange.Split | rearrange_order.py:46-55 | the remaining items split into those within the limit and those beyond it, losing and duplicating nothing |
| Rearrange.SplitKeepsOrder | rearrange_order.py:46-55 | both parts keep input order: the popped items are the input filtered to those within the limit, and the rest the input filtered to those beyond it |
| Rearrange.Absorb | rearrange_order.py:46-59 | the absorbed items are exactly those within the layer's distance plus the buffer, in ascending z, equal heights in input order; the rest stay, in input order |
| Rearrange.LayerStep | rearrange_order.py:31-59 | each pass strictly shrinks the remaining items, so the loop terminates, and it moves items into layers without loss or duplication |
| Rearrange.LayerKeeps | rearrange_order.py:31-59 | the whole layering loop places every small-section item into the layers exactly once |
| Rearrange.CloseKeeps | rearrange_order.py:62-63 | appending the last layer keeps the flattened contents |
| Rearrange.SmallLayeredKeeps | rearrange_order.py:23-63 | the layered small section is a permutation of the small section |
| Rearrange.Assemble | rearrange_order.py:64-74 | the large section gets load orders 1..L and the small section L+1..N, so every record's load order is its 1-based position |
| Rearrange.AssembleUnordered | rearrange_order.py:20 | renumbering changes only load orders |
| Rearrange.RearrangeOrder | rearrange_order.py:5-74 | the result has one record per input item, with load order equal to the 1-based position |
| Rearrange.RearrangeIsPermutation | rearrange_order.py:5-74 | with load orders blanked, the result is a permutation of the input: id, position, orientation, location and weight are untouched |
| Rearrange.RearrangeLargeFirst | rearrange_order.py:11-20 | the result opens with exactly the items within the first 70% of the width, in stable old-load-order order and renumbered; every later item lies beyond |
| Rearrange.RearrangeSmallLayered | rearrange_order.py:64-71 | the small section follows in layer order, a permutation of the small items, renumbered from L+1 |
| Unload.NotSelfBlocking | unload.py:17-22 | no item blocks itself |
| Unload.RestingOnTopDoesNotBlock | unload.py:17 | an item whose bottom is at another's top does not block it, since the height ranges must overlap |
| Unload.BlockingCases | unload.py:17-24 | with overlapping heights, an item nearer the door (smaller y) blocks; otherwise it blocks exactly when the depths overlap and it sits higher |
| Unload.ByDepth | unload.py:27 | the items are permuted into descending y, and items at equal y keep their order |
| Unload.OfLocationMembers | unload.py:29-30 | a zone's group holds exactly the items with that location |
| Unload.TargetsDeepestFirst | unload.py:27-30 | each zone's targets are served deepest first |
| Unload.BlockersMembers | unload.py:46-48 | the blockers are exactly the other items, not unloaded for good, that block the target |
| Unload.ClearOne | unload.py:50-70 | exactly one entry, numbered with the current `unload_order`, is logged after the earlier ones, "Unload" exactly for a blocker of the served zone (unloaded for good) and "Temporarily unload" otherwise (kept for reloading); both counters advance by one |
| Unload.TempLoggedStep | unload.py:50-70 | taking out a blocker keeps the temporary list equal, in order, to the items logged as temporarily unloaded, with nothing reloaded |
| Unload.ClearBlockers | unload.py:50-70 | the blocking loop logs one entry per blocker, in order, with the right action, and unloads for good exactly the served zone's blockers |
| Unload.UnloadTarget | unload.py:43-81 | serving a target logs its blockers' entries, then one Unload for the target, all numbered on |
| Unload.UnloadGroup | unload.py:43-81 | the target loop keeps the log numbered and the temporary list equal to what was logged as temporary |
| Unload.ReloadIds | unload.py:83-92 | the reloads add exactly the temporary items' ids, in order |
| Unload.ServeLocation | unload.py:38-94 | a zone's step is labelled with the zone, its entries are numbered on from the previous order, `total_operations` grows by the entry count, and its Reload ids equal its "Temporarily unload" ids, in order |
| Unload.CloseZone | unload.py:83-94 | after the reloads the numbering carries on and the Reload ids match the temporary ids |
| Unload.ServeAll | unload.py:38-94 | one step per zone, in order; `total_operations` counts all entries; unload orders run 1..total in log order; each step reloads exactly what it took out temporarily |
| Unload.UnloadItems | unload.py:26-96 | the log has a step for each of po1..po5 in that order, `total_operations` equals the number of logged entries, unload orders are 1..total, and every step's Reloads match its temporary unloads |
| Replay.StepOrder | unloading_visualize.py:41-45 | a step's replay entries are a permutation of its entries |
| Replay.StepOrderUnloads | unloading_visualize.py:41-43 | the non-Reload entries come first, by descending unload order, and entries with equal order keep their order |
| Replay.StepOrderReloads | unloading_visualize.py:44-45 | the Reload entries follow all non-Reload ones, in their original relative order |
| Replay.SortedOperations | unloading_visualize.py:38-46 | the replay order is a permutation of all logged entries |
| Replay.SortedOperationsPrefix | unloading_visualize.py:40-45 | the replay order of the first m steps is a prefix of the whole |
| Replay.SortedOperationsBlocks | unloading_visualize.py:40-45 | step i's replay entries fill the block right after those of steps 0..i-1 |
| Replay.SortedOperationsBlockEntries | unloading_visualize.py:40-45 | that block holds exactly step i's entries |
| Replay.ReplayOrder | unloading_visualize.py:33 | the packed items are permuted into descending load order, and ties keep their order |
| Replay.Positions | unloading_visualize.py:36 | every key of the initial dictionary maps to a packed item with that id |
| Replay.PositionsLast | unloading_visualize.py:36 | the dictionary keeps the last packed item with each id |
| Replay.PositionsKeys | unloading_visualize.py:36 | the keys are exactly the packed items' ids |
| Replay.FirstWithId | unloading_visualize.py:84 | the lookup finds the first packed item with the id, and nothing exactly when no packed item has it |
| Replay.PositionsIsFirst | unloading_visualize.py:36 | with distinct ids, the item a Reload brings back is the one the dictionary started with |
| Replay.ReplayStep | unloading_visualize.py:80-84 | Unload and "Temporarily unload" remove the id if present; Reload restores the first packed item with that id; no other key changes; it fails exactly for a Reload of an unknown id |
| Replay.TempThenReload | unloading_visualize.py:80-84 | taking out a present item temporarily and reloading it restores the dictionary |
| Replay.ReplayFailsOnlyOnMissing | unloading_visualize.py:84 | a replay fails exactly when some Reload names an id no packed item has |
| Replay.ReplayEffect | unloading_visualize.py:75-84 | after a replay an unmentioned id is untouched, and a mentioned one is present exactly when its last operation is a Reload |
| Replay.ReplayTwice | unloading_visualize.py:75-84 | replaying the same operations again changes nothing |
| Replay.FramesShowPrefix | unloading_visualize.py:75-84 | with the global dictionary mutated across frames, frame n still shows the replay of the first n operations |
| Replay.InitialTempThenReload | unloading_visualize.py:36 | from the initial dictionary with distinct ids, a temporary unload then Reload of a packed item restores it |
| Barcode.NextMappingId | barcode_reader.py:31-33 | the next id is at least 0, greater than every existing id (a missing one counts as -1), one more than some existing id unless it is 0, and 0 when no record has an id |
| Barcode.Find | barcode_reader.py:54 | the barcode's record is the first with that key, and none exactly when no record has it |
| Barcode.ScanOne | barcode_reader.py:54-63 | an unknown barcode changes nothing; a record with an id keeps it; a record without one gets the next id; no other record changes |
| Barcode.ScanOneKeepsDistinct | barcode_reader.py:54-60 | one scan never gives two records the same id and never overwrites an id |
| Barcode.ProcessScans | barcode_reader.py:38-63 | processing scans, with empty ones skipped, keeps the same boxes with the same details |
| Barcode.ProcessScansFacts | barcode_reader.py:47-63 | after processing, ids are still distinct, no id changed, and every known non-empty scanned barcode has an id |

## Left out

- Matplotlib drawing and animation: `visualize.py`, the plotting halves of the loading scripts, and the frames of unloading_visualize.py. Only the dictionary update behind the frames is modelled.
- File and JSON I/O, `input()` and all `print` calls, and the module-level loads in unload.py and unloading_visualize.py. Their data are parameters.
- main.py, main_data.py and given_data.py. They orchestrate files and scale the container by a float. main.py also imports `PackingAlgorithm` from subvolume and `process_unloading` from unload, and neither is defined there.
- loading/loaded4.py: its functions are those of loaded6.py, and its script cannot run (empty container size, undefined specs).
- The other context scripts: `reinforce_learning.py` (a TensorFlow training loop), box.py, main_scenario_box.py, data_generator.py, generate_barcodes.py (random data and barcode images) and change.py (a file rewrite).
- barcode_reader.py's `read_barcode`, its keyboard listener and the 30-second timeouts, which are real-time I/O. The scans arrive as a sequence of already stripped strings.
- The box data of barcode_reader.py is a sequence of (key, record) pairs in insertion order. Keys are assumed distinct, as in a dict, and a present `mapping_id` is assumed to be an integer. `Find` takes the first match.
- `heuristics (사본).py`: a copy of heuristics.py with only two orientations and a different data import. It is not part of this model.
- The iteration count of `pack_items_with_permutations` (10 by default): the model takes any number of item orders.
- `random.shuffle` in heuristics.py: the per-iteration item orders are a parameter. heuristics.py sorts by location before shuffling, so that sort has no effect.
- Heuristics.Run's extra `run` field, which names the run that was kept. It is observational only.
- The repeated simulations of loaded6.py: the script runs 5 identical, deterministic simulations. `BestFitLoader.Simulate` models one, and the list of five percentages is left out.
- Floating point:
  - Utilisation and empty percentages are exact reals.
  - The 0.8 support ratio is the exact integer test 5·supported >= 4·area (`Subvolume.SupportRatio`).
  - Subvolume.LargeSectionWidth: computes 7·width/10 exactly, truncated toward zero. `int(width * 0.7)` in IEEE doubles differs for some widths (for 90 the double gives 62, the exact value 63).
- Division by zero: `calculate_capacity_utilization` on a zero-volume container is `None` (`PlacedList.Utilization`). `pack_items_with_permutations` and the loaders' percentage require a positive-volume container, since the source raises there.
- Subvolume.PackItems: a PO number that does not parse makes the sort raise; the model returns `None` for the whole call instead of an exception.
- IntParse.ParseInt: covers ASCII text only. The Unicode whitespace and the non-ASCII decimal digits that `int()` also accepts are not modelled, nor is the interpreter's limit on the number of digits.
- Rotation in the grid loaders is only ever called with 0..5. The `None` that `rotate_size` returns for other values is modelled (`GridLoading.RotateSize`) but never reached.
- NumPy specifics: arrays are sets of integer cells, and `np.all` over an empty slice is modelled as true.
- BestFitLoader.FindBestFit: its own ensures state only feasibility. Maximality and tie-breaking are stated by `BestFitLoader.FindBestFitIsBest`, which needs non-negative sizes (a negative extent would make the score negative and fall below the -1 start).
- In-place renumbering in rearrange_order.py: lines 20 and 69 overwrite `load_order` in the caller's own item dicts, so the input list's items change as a side effect. `Rearrange.RearrangeOrder` returns new records instead and leaves its input as it was; no caller in rearrange_order.py reads the input items after the call.
- Items.RotationsKeepSigns, PlacedList.PositiveRotations and the other small helper lemmas have no row: they state arithmetic used by the rows above.

## Findings

| source | as written | input that shows it | evidently intended | confidence | as-written member | corrected member |
|---|---|---|---|---|---|---|
| loading/loaded.py:62-68 | a new row advances y by the current box's depth, and a new layer advances z by the current box's height | container 2 x 3 x 1, label "A": one 1 x 2 x 1 box, then two 1 x 1 x 1 boxes. The second unit box is put at (0, 1, 0), inside the first box | rows and layers advance past the deepest and tallest box already in them, so loaded boxes never overlap | medium, not executed | RowFiller.AsWrittenOverlaps | RowFiller.CorrectedRunDisjoint |
