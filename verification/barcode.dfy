/**
 * The mapping-id assignment of barcode_reader.py. The box data is a JSON
 * object from box id to a record; the scanned barcodes arrive as a sequence
 * of already stripped strings (the keyboard reader and its timeouts are
 * left out).
 */
module Barcode {
  import opened Wrappers
  import opened Scan

  /** A box record: its `mapping_id`, if it has one, and the other fields. */
  datatype Record = Record(mappingId: Option<int>, details: string)

  /** The box data in its insertion order, as Python's dict keeps it. */
  type Data = seq<(string, Record)>

  /** `box.get('mapping_id', -1)`. */
  function IdOr(r: Record): int {
    if r.mappingId.Some? then r.mappingId.value else -1
  }

  function Max(a: int, b: int): int {
    if a < b then b else a
  }

  /** `get_next_mapping_id`: one more than the largest mapping id, where a
      record without one counts as -1, and -1 is always a candidate. */
  function NextMappingId(data: Data): (r: int)
    ensures r >= 0
    ensures forall i :: 0 <= i < |data| ==> IdOr(data[i].1) < r
    ensures r == 0 || exists i :: 0 <= i < |data| && IdOr(data[i].1) == r - 1
    ensures (forall i :: 0 <= i < |data| ==> data[i].1.mappingId.None?) ==> r == 0
  {
    if |data| == 0 then 0
    else
      var prev := NextMappingId(data[..|data| - 1]);
      Max(prev, IdOr(data[|data| - 1].1) + 1)
  }

  function KeyIs(barcode: string): ((string, Record)) -> bool {
    (e: (string, Record)) => e.0 == barcode
  }

  /** `barcode in data`: the position of the barcode's record, if any. */
  function Find(data: Data, barcode: string): (r: Option<nat>)
    ensures r.Some? ==> r.value < |data| && data[r.value].0 == barcode
    ensures r.Some? ==> forall j :: 0 <= j < r.value ==> data[j].0 != barcode
    ensures r.None? <==> forall i :: 0 <= i < |data| ==> data[i].0 != barcode
  {
    FirstMatch(data, KeyIs(barcode))
  }

  /** Same barcodes in the same order, same record fields except mapping ids. */
  predicate SameBoxes(a: Data, b: Data) {
    |a| == |b| && forall i :: 0 <= i < |a| ==> a[i].0 == b[i].0 && a[i].1.details == b[i].1.details
  }

  /** One scan (lines 54-63): a known barcode whose record has no mapping id
      gets the next one; a record that has one keeps it; an unknown barcode
      changes nothing. */
  function ScanOne(data: Data, barcode: string): (r: Data)
    ensures SameBoxes(data, r)
    ensures Find(data, barcode).None? ==> r == data
    ensures Find(data, barcode).Some? ==>
              var k := Find(data, barcode).value;
              && r[k].1.mappingId.Some?
              && (data[k].1.mappingId.Some? ==> r == data)
              && (data[k].1.mappingId.None? ==> r[k].1.mappingId == Some(NextMappingId(data)))
              && (forall i :: 0 <= i < |data| && i != k ==> r[i] == data[i])
  {
    match Find(data, barcode)
    case None => data
    case Some(k) =>
      if data[k].1.mappingId.Some? then data
      else data[k := (barcode, data[k].1.(mappingId := Some(NextMappingId(data))))]
  }

  /** No two records share a mapping id. */
  predicate DistinctIds(data: Data) {
    forall i, j :: 0 <= i < j < |data| && data[i].1.mappingId.Some? ==> data[j].1.mappingId != data[i].1.mappingId
  }

  /** Every id a record had, it still has. */
  predicate KeepsIds(before: Data, after: Data) {
    |before| == |after| &&
    forall i :: 0 <= i < |before| && before[i].1.mappingId.Some? ==> after[i].1.mappingId == before[i].1.mappingId
  }

  /** A scan never gives two records the same mapping id and never
      overwrites one. */
  lemma ScanOneKeepsDistinct(data: Data, barcode: string)
    requires DistinctIds(data)
    ensures DistinctIds(ScanOne(data, barcode))
    ensures KeepsIds(data, ScanOne(data, barcode))
  {
    var r := ScanOne(data, barcode);
    var m := Find(data, barcode);
    if m.Some? && data[m.value].1.mappingId.None? {
      var k := m.value;
      var nextId := NextMappingId(data);
      forall i, j | 0 <= i < j < |r| && r[i].1.mappingId.Some?
        ensures r[j].1.mappingId != r[i].1.mappingId
      {
        if i == k {
          assert IdOr(data[j].1) < nextId;
        } else if j == k {
          assert IdOr(data[i].1) < nextId;
        }
      }
    }
  }

  /** The scanning loop over the stripped barcodes in scan order; an empty
      scan is skipped (lines 47-49). */
  function ProcessScans(data: Data, scans: seq<string>): (r: Data)
    ensures SameBoxes(data, r)
  {
    if |scans| == 0 then data
    else
      var before := ProcessScans(data, scans[..|scans| - 1]);
      var barcode := scans[|scans| - 1];
      if barcode == "" then before else ScanOne(before, barcode)
  }

  /** Processing scans keeps mapping ids distinct, never changes an id once
      given, and leaves every known, scanned barcode with a mapping id. */
  lemma {:induction false} ProcessScansFacts(data: Data, scans: seq<string>)
    requires DistinctIds(data)
    ensures var r := ProcessScans(data, scans);
      && DistinctIds(r)
      && KeepsIds(data, r)
      && forall s :: s in scans && s != "" && Find(data, s).Some? ==> r[Find(data, s).value].1.mappingId.Some?
  {
    if |scans| > 0 {
      var pre := scans[..|scans| - 1];
      var before := ProcessScans(data, pre);
      var barcode := scans[|scans| - 1];
      ProcessScansFacts(data, pre);
      ScanOneKeepsDistinct(before, barcode);
      var r := ProcessScans(data, scans);
      FindSameBoxes(data, before);
      FindSameBoxes(data, r);
      forall s | s in scans && s != "" && Find(data, s).Some?
        ensures r[Find(data, s).value].1.mappingId.Some?
      {
        if s in pre {
          assert before[Find(data, s).value].1.mappingId.Some?;
        } else {
          assert s == barcode;
        }
      }
    }
  }

  /** Finding a barcode only looks at the keys. */
  lemma FindSameBoxes(a: Data, b: Data)
    requires SameBoxes(a, b)
    ensures forall s :: Find(a, s) == Find(b, s)
  {
  }
}
