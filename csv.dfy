/**
 How the CSV reader that LoadLookupTable creates hands out records. A
 csv.Reader made by csv.NewReader leaves FieldsPerRecord at 0, which makes the
 first record fix the number of fields: every later record with another number
 of fields is returned together with ErrFieldCount. LoadLookupTable leaves its
 loop on any read error, so a wrong-arity row ends the table instead of being
 skipped, and its own `len(row) != 3` test can only fire when the header
 itself does not have three fields. A reader with FieldsPerRecord set to -1
 hands out every record, which gives the evident intent: a malformed row is
 ignored and the rows after it are still loaded.
 */
module Csv {
  import opened Wrappers
  import opened Assignments
  import opened Lookup

  /** The reader as created in the program: records must have the header's arity. */
  function StrictReads(records: seq<Row>): (steps: seq<Step<Row>>)
  {
    seq(|records|, i requires 0 <= i < |records| =>
      if |records[i]| == |records[0]| then Item(records[i]) else Broken(FieldCount))
  }

  /** A reader with FieldsPerRecord = -1: every record is handed out as is. */
  function LenientReads(records: seq<Row>): (steps: seq<Step<Row>>)
  {
    seq(|records|, i requires 0 <= i < |records| => Item(records[i]))
  }

  /** The table LoadLookupTable builds from the read outcomes of a file whose header was read. */
  function LoadedTable(steps: seq<Step<Row>>): LookupTable
    requires |steps| > 0
  {
    TableOf(Delivered(steps[1..]))
  }

  /**
   As written: the table holds the rows before the first row whose arity differs
   from the header's, and nothing from that row on.
   */
  lemma StrictStopsAtArityChange(records: seq<Row>, j: nat)
    requires 1 <= j < |records| && |records[j]| != |records[0]|
    requires forall i :: 1 <= i < j ==> |records[i]| == |records[0]|
    ensures LoadedTable(StrictReads(records)) == TableOf(records[1..j])
  {
    var steps := StrictReads(records)[1..];
    DeliveredStopsAtError(steps, j - 1);
    var d := steps[..j - 1];
    forall k | 0 <= k < j - 1 ensures d[k] == Item(records[1..j][k]) {
      assert d[k] == StrictReads(records)[k + 1];
    }
    DeliveredOfItems(d, records[1..j]);
  }

  /**
   As written: a row that reaches the table has the header's arity, so with a
   three-field header no row is ever dropped as malformed, and with any other
   header the table is empty.
   */
  lemma StrictRowsHaveHeaderArity(records: seq<Row>)
    requires |records| > 0
    ensures forall row :: row in Delivered(StrictReads(records)[1..]) ==> |row| == |records[0]|
    ensures |records[0]| != 3 ==> LoadedTable(StrictReads(records)) == map[]
  {
    var steps := StrictReads(records)[1..];
    var rows := Delivered(steps);
    forall row | row in rows ensures |row| == |records[0]| {
      var k :| 0 <= k < |rows| && rows[k] == row;
      assert steps[k] == StrictReads(records)[k + 1];
    }
    if |records[0]| != 3 {
      var empty: LookupTable := map[];
      forall k ensures k !in TableOf(rows) {
        TableKeys(rows, k);
      }
      assert TableOf(rows) == empty;
    }
  }

  /** Corrected: a lenient reader hands every data row to the table. */
  lemma LenientDeliversAll(records: seq<Row>)
    requires |records| > 0
    ensures Delivered(LenientReads(records)[1..]) == records[1..]
  {
    var steps := LenientReads(records)[1..];
    forall k | 0 <= k < |steps| ensures steps[k] == Item(records[1..][k]) {
      assert steps[k] == LenientReads(records)[k + 1];
    }
    DeliveredOfItems(steps, records[1..]);
  }

  /** Corrected: a malformed data row can be removed without changing the table. */
  lemma LenientIgnoresMalformedRow(records: seq<Row>, j: nat)
    requires 1 <= j < |records| && |records[j]| != 3
    ensures LoadedTable(LenientReads(records)) == LoadedTable(LenientReads(records[..j] + records[j + 1..]))
  {
    var shorter := records[..j] + records[j + 1..];
    LenientDeliversAll(records);
    LenientDeliversAll(shorter);
    MalformedRowIgnored(records[1..], j - 1);
    assert records[1..][..j - 1] + records[1..][j..] == shorter[1..];
  }

  /** Outcomes that are all items deliver exactly those items. */
  lemma DeliveredOfItems(steps: seq<Step<Row>>, rows: seq<Row>)
    requires |steps| == |rows| && forall k :: 0 <= k < |steps| ==> steps[k] == Item(rows[k])
    ensures Delivered(steps) == rows
  {
  }
}
