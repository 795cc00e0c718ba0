/**
 The lookup table: a map from the composite key "<port>,<protocol>" to a tag,
 read from a CSV file whose first record is a header. CSV tokenisation is
 the reader's business: each read call either yields a record (a sequence of
 fields) or an error, and the first error ends the table.
 */
module Lookup {
  import opened Text
  import opened Wrappers
  import opened Assignments

  type Row = seq<string>

  /** "<port>,<protocol>" to tag. */
  type LookupTable = map<string, string>

  /** The composite key used by the lookup table and by the port/protocol counts. */
  function Key(port: string, protocol: string): string
  {
    port + "," + protocol
  }

  /** The key of a three-field row: the trimmed port and the lower-cased, trimmed protocol. */
  function RowKey(row: Row): string
    requires |row| == 3
  {
    Key(TrimSpace(row[0]), TrimSpace(ToLower(row[1])))
  }

  /** What one data row does to the table: a row without exactly three fields is skipped. */
  function RowWrite(row: Row): Write<string, string>
  {
    if |row| != 3 then Skip else Put(RowKey(row), TrimSpace(row[2]))
  }

  function RowWrites(rows: seq<Row>): seq<Write<string, string>>
  {
    seq(|rows|, i requires 0 <= i < |rows| => RowWrite(rows[i]))
  }

  /** The table built from the data rows, in order. */
  function TableOf(rows: seq<Row>): LookupTable
  {
    PerformAll(map[], RowWrites(rows))
  }

  /**
   LoadLookupTable: file is what opening the file produced, and then the outcome
   of each read call. The first record is the header and is discarded; failing
   to read it (an empty file included) is an error. Data rows are read until
   the first read error, which ends the table without failing the load.
   */
  method LoadLookupTable(file: Result<seq<Step<Row>>>) returns (r: Result<LookupTable>)
    ensures file.Err? ==> r == Err(file.error)
    ensures file.Ok? && |file.value| == 0 ==> r == Err(EndOfFile)
    ensures file.Ok? && |file.value| > 0 && file.value[0].Broken? ==> r == Err(file.value[0].error)
    ensures file.Ok? && |file.value| > 0 && file.value[0].Item? ==> r == Ok(TableOf(Delivered(file.value[1..])))
  {
    if file.Err? {
      return Err(file.error);
    }
    var records := file.value;
    if |records| == 0 {
      return Err(EndOfFile);
    }
    if records[0].Broken? {
      return Err(records[0].error);
    }
    ghost var data := records[1..];
    var table: LookupTable := map[];
    var i := 1;
    while i < |records| && records[i].Item?
      invariant 1 <= i <= |records|
      invariant forall k :: 0 <= k < i - 1 ==> data[k].Item?
      invariant table == TableOf(Delivered(data[..i - 1]))
    {
      var row := records[i].value;
      assert data[..i] == data[..i - 1] + [data[i - 1]];
      DeliveredSnoc(data[..i - 1], row);
      assert RowWrites(Delivered(data[..i])) == RowWrites(Delivered(data[..i - 1])) + [RowWrite(row)];
      PerformAllSnoc(map[], RowWrites(Delivered(data[..i - 1])), RowWrite(row));
      i := i + 1;
      if |row| != 3 {
        continue;
      }
      var dstport := TrimSpace(row[0]);
      var protocol := TrimSpace(ToLower(row[1]));
      var tag := TrimSpace(row[2]);
      var key := Key(dstport, protocol);
      table := table[key := tag];
    }
    if i < |records| {
      DeliveredStopsAtError(data, i - 1);
    } else {
      assert data[..i - 1] == data;
    }
    return Ok(table);
  }

  // ---------------------------------------------------------------------
  // Properties

  /** A key splits back into its port and protocol when neither holds a comma. */
  lemma KeySplit(port: string, protocol: string)
    requires ',' !in port && ',' !in protocol
    ensures Split(Key(port, protocol), ',') == [port, protocol]
  {
    assert Join([port, protocol], ',') == Key(port, protocol) by {
      assert [port, protocol][1..] == [protocol];
    }
    SplitJoin([port, protocol], ',');
  }

  /**
   The protocol part of a row's key is the protocol field trimmed and lower-cased
   (in either order), so it holds no upper-case letter and no surrounding space;
   the port part is the trimmed port, case untouched.
   */
  lemma RowKeyNormalised(row: Row)
    requires |row| == 3
    ensures var p := TrimSpace(ToLower(row[1]));
      RowKey(row) == TrimSpace(row[0]) + "," + p && p == ToLower(TrimSpace(row[1])) &&
      Trimmed(p) && Trimmed(TrimSpace(row[0])) &&
      forall i :: 0 <= i < |p| ==> !IsUpper(p[i])
  {
    TrimSpaceToLower(row[1]);
    ToLowerShape(TrimSpace(row[1]));
    var _, _ := TrimSpaceShape(ToLower(row[1]));
    var _, _ := TrimSpaceShape(row[0]);
  }

  /**
   Rows with the same port whose protocols differ only in letter case write
   the same key; the tag is stored trimmed, its case kept.
   */
  lemma RowKeyIgnoresCase(row1: Row, row2: Row)
    requires |row1| == 3 && |row2| == 3 && row1[0] == row2[0]
    requires |row1[1]| == |row2[1]| && forall i :: 0 <= i < |row1[1]| ==> SameIgnoringCase(row1[1][i], row2[1][i])
    ensures RowWrite(row1).Put? && RowWrite(row2).Put? && RowWrite(row1).key == RowWrite(row2).key
    ensures RowWrite(row1).value == TrimSpace(row1[2]) && RowWrite(row2).value == TrimSpace(row2[2])
  {
    ToLowerEqual(row1[1], row2[1]);
  }

  /** The keys of the table are exactly the keys of its three-field rows. */
  lemma TableKeys(rows: seq<Row>, k: string)
    ensures k in TableOf(rows) <==> exists i :: 0 <= i < |rows| && |rows[i]| == 3 && RowKey(rows[i]) == k
  {
    var ws := RowWrites(rows);
    PerformAllKeys(map[], ws, k);
    if exists i :: 0 <= i < |ws| && Writes(ws[i], k) {
      var i :| 0 <= i < |ws| && Writes(ws[i], k);
      assert ws[i] == RowWrite(rows[i]);
    }
    if exists i :: 0 <= i < |rows| && |rows[i]| == 3 && RowKey(rows[i]) == k {
      var i :| 0 <= i < |rows| && |rows[i]| == 3 && RowKey(rows[i]) == k;
      assert Writes(ws[i], k);
    }
  }

  /** With duplicate keys the tag of the last such row is the one stored. */
  lemma TableLastWins(rows: seq<Row>, j: nat)
    requires j < |rows| && |rows[j]| == 3
    requires forall i :: j < i < |rows| && |rows[i]| == 3 ==> RowKey(rows[i]) != RowKey(rows[j])
    ensures RowKey(rows[j]) in TableOf(rows)
    ensures TableOf(rows)[RowKey(rows[j])] == TrimSpace(rows[j][2])
  {
    var ws := RowWrites(rows);
    forall i | j < i < |ws| ensures !Writes(ws[i], ws[j].key) {
      assert ws[i] == RowWrite(rows[i]);
    }
    PerformAllLastWins(map[], ws, j);
  }

  /** A row without exactly three fields can be removed without changing the table. */
  lemma MalformedRowIgnored(rows: seq<Row>, j: nat)
    requires j < |rows| && |rows[j]| != 3
    ensures TableOf(rows) == TableOf(rows[..j] + rows[j + 1..])
  {
    var ws := RowWrites(rows);
    PerformAllWithoutSkip(map[], ws, j);
    assert RowWrites(rows[..j] + rows[j + 1..]) == ws[..j] + ws[j + 1..];
  }

  /** The header never reaches the table, and rows from the first read error on do not either. */
  lemma TableStopsAtError(records: seq<Step<Row>>, j: nat)
    requires 1 <= j < |records| && records[j].Broken?
    ensures TableOf(Delivered(records[1..])) == TableOf(Delivered(records[1..j]))
  {
    DeliveredStopsAtError(records[1..], j - 1);
    assert records[1..][..j - 1] == records[1..j];
  }
}
