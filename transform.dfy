/** EventDataTransformer: projects 18-field raw event rows onto the 11
    canonical columns, drops rows with an empty artist when asked to, and
    writes the consolidated artifact (a header row, then one row per kept
    input row). The artifact is modelled as the sequence of rows the CSV
    writer receives. */
module Transform {
  import opened Common

  /** The canonical columns, in artifact order; also the artifact's header row. */
  const OUTPUT_COLUMNS: seq<string> := [
    "artist", "firstName", "gender", "itemInSession", "lastName", "length",
    "level", "location", "sessionId", "song", "userId"
  ]

  /** Raw-row position of each canonical column. */
  const COLUMN_MAPPING: map<string, nat> := map[
    "artist" := 0, "firstName" := 2, "gender" := 3, "itemInSession" := 4,
    "lastName" := 5, "length" := 6, "level" := 7, "location" := 8,
    "sessionId" := 12, "song" := 13, "userId" := 16
  ]

  /** COLUMN_MAPPING read in OUTPUT_COLUMNS order: the raw field behind each
      artifact column. Proofs use these positions; ColumnMappingWellFormed
      ties them to the mapping. */
  const SOURCE_FIELDS: seq<nat> := [0, 2, 3, 4, 5, 6, 7, 8, 12, 13, 16]

  /** Raw position of the artist field, COLUMN_MAPPING["artist"]. */
  const ARTIST_FIELD: nat := 0

  /** The mapping covers exactly the output columns, sends no two columns to
      the same raw field, and reads nothing past raw index 16. */
  lemma ColumnMappingWellFormed()
    ensures |OUTPUT_COLUMNS| == |SOURCE_FIELDS| == 11
    ensures COLUMN_MAPPING.Keys == set c | c in OUTPUT_COLUMNS
    ensures forall i :: 0 <= i < |OUTPUT_COLUMNS| ==> COLUMN_MAPPING[OUTPUT_COLUMNS[i]] == SOURCE_FIELDS[i]
    ensures COLUMN_MAPPING["artist"] == ARTIST_FIELD
    ensures forall i, j :: 0 <= i < j < |SOURCE_FIELDS| ==> SOURCE_FIELDS[i] < SOURCE_FIELDS[j] <= 16
  {
  }

  /** The position of a column name in the header row. */
  function ColumnIndex(name: string): (i: nat)
    requires name in OUTPUT_COLUMNS
    ensures i < |OUTPUT_COLUMNS| && OUTPUT_COLUMNS[i] == name
  {
    IndexOf(OUTPUT_COLUMNS, name)
  }

  function IndexOf(s: seq<string>, x: string): (i: nat)
    requires x in s
    ensures i < |s| && s[i] == x
    ensures forall j :: 0 <= j < i ==> s[j] != x
  {
    if s[0] == x then 0 else 1 + IndexOf(s[1..], x)
  }

  /** A name's position is the first one holding it. */
  lemma ColumnIndexAt(i: nat, name: string)
    requires i < |OUTPUT_COLUMNS| && OUTPUT_COLUMNS[i] == name
    requires forall j :: 0 <= j < i ==> OUTPUT_COLUMNS[j] != name
    ensures ColumnIndex(name) == i
  {
    var k := ColumnIndex(name);
    if k < i {
      assert false;
    } else if k > i {
      assert false;
    }
  }

  /** The header names no column twice: each column's position is its own. */
  lemma ColumnPosition(i: nat)
    requires i < |OUTPUT_COLUMNS|
    ensures ColumnIndex(OUTPUT_COLUMNS[i]) == i
  {
    var name := OUTPUT_COLUMNS[i];
    forall j | 0 <= j < i
      ensures OUTPUT_COLUMNS[j] != name
    {
      assert |OUTPUT_COLUMNS[j]| != |name| || OUTPUT_COLUMNS[j][0] != name[0] || OUTPUT_COLUMNS[j][1] != name[1];
    }
    ColumnIndexAt(i, name);
  }

  /** transform_row: the canonical projection of a raw row, field i taken
      from raw position COLUMN_MAPPING[OUTPUT_COLUMNS[i]] (= SOURCE_FIELDS[i]). */
  function TransformRow(row: Row): (out: Row)
    requires |row| > 16
    ensures |out| == |OUTPUT_COLUMNS|
    ensures out[0] == row[ARTIST_FIELD]
  {
    seq(|SOURCE_FIELDS|, i requires 0 <= i < |SOURCE_FIELDS| => row[SOURCE_FIELDS[i]])
  }

  /** Field i of the projection is the raw field COLUMN_MAPPING assigns to output column i. */
  lemma TransformRowFollowsMapping(row: Row)
    requires |row| > 16
    ensures forall i :: 0 <= i < |OUTPUT_COLUMNS| ==>
              OUTPUT_COLUMNS[i] in COLUMN_MAPPING && TransformRow(row)[i] == row[COLUMN_MAPPING[OUTPUT_COLUMNS[i]]]
  {
    ColumnMappingWellFormed();
  }

  /** should_skip_row. With the flag set it reads the artist field, so the
      row must have one. */
  predicate ShouldSkipRow(skipEmptyArtist: bool, row: Row)
    requires skipEmptyArtist ==> |row| > ARTIST_FIELD
    ensures !skipEmptyArtist ==> !ShouldSkipRow(skipEmptyArtist, row)
    ensures |row| > 16 ==> (ShouldSkipRow(skipEmptyArtist, row) <==> skipEmptyArtist && TransformRow(row)[0] == "")
  {
    skipEmptyArtist && row[ARTIST_FIELD] == ""
  }

  /** The filter drops this row: should_skip_row holds of it. (With the flag
      set, a row without an artist field makes should_skip_row raise; such a
      row is not dropped but fails, see RaisesIndexError.) */
  predicate IsDropped(skipEmptyArtist: bool, row: Row) {
    |row| > ARTIST_FIELD && ShouldSkipRow(skipEmptyArtist, row)
  }

  /** Processing this row in write_consolidated_csv raises IndexError: the row
      is not dropped, and transform_row (or, for an empty row with the flag
      set, should_skip_row) reads past its end. */
  predicate RaisesIndexError(skipEmptyArtist: bool, row: Row) {
    !IsDropped(skipEmptyArtist, row) && |row| <= 16
  }

  predicate NoIndexError(skipEmptyArtist: bool, rows: seq<Row>) {
    forall r :: r in rows ==> !RaisesIndexError(skipEmptyArtist, r)
  }

  /** Position of the first row that raises IndexError, or |rows| when none does. */
  function FirstIndexError(skipEmptyArtist: bool, rows: seq<Row>): (k: nat)
    ensures k <= |rows|
    ensures NoIndexError(skipEmptyArtist, rows[..k])
    ensures k < |rows| ==> RaisesIndexError(skipEmptyArtist, rows[k])
  {
    if rows == [] then 0
    else if RaisesIndexError(skipEmptyArtist, rows[0]) then 0
    else
      var k := 1 + FirstIndexError(skipEmptyArtist, rows[1..]);
      assert rows[..k] == [rows[0]] + rows[1..][..k - 1];
      k
  }

  /** The first failing row is the one with no failing row before it. */
  lemma FirstIndexErrorAt(skipEmptyArtist: bool, rows: seq<Row>, i: nat)
    requires i < |rows| && RaisesIndexError(skipEmptyArtist, rows[i])
    requires NoIndexError(skipEmptyArtist, rows[..i])
    ensures FirstIndexError(skipEmptyArtist, rows) == i
  {
    var k := FirstIndexError(skipEmptyArtist, rows);
    if k < i {
      assert false;
    } else if k > i {
      assert false;
    }
  }

  /** The rows the filter keeps, in input order. */
  function Kept(skipEmptyArtist: bool, rows: seq<Row>): (kept: seq<Row>)
    ensures |kept| <= |rows|
    ensures forall r :: r in kept ==> r in rows && !IsDropped(skipEmptyArtist, r)
  {
    if rows == [] then []
    else
      var last := rows[|rows| - 1];
      var init := Kept(skipEmptyArtist, rows[..|rows| - 1]);
      if IsDropped(skipEmptyArtist, last) then init else init + [last]
  }

  /** The number of rows the filter drops. */
  function SkippedCount(skipEmptyArtist: bool, rows: seq<Row>): (skipped: nat)
    ensures skipped <= |rows|
    ensures !skipEmptyArtist ==> skipped == 0
  {
    if rows == [] then 0
    else
      var last := rows[|rows| - 1];
      SkippedCount(skipEmptyArtist, rows[..|rows| - 1]) + if IsDropped(skipEmptyArtist, last) then 1 else 0
  }

  /** transform_row applied to each row. */
  function TransformAll(rows: seq<Row>): (out: seq<Row>)
    requires forall r :: r in rows ==> |r| > 16
    ensures |out| == |rows|
    ensures forall i :: 0 <= i < |rows| ==> out[i] == TransformRow(rows[i])
  {
    seq(|rows|, i requires 0 <= i < |rows| => TransformRow(rows[i]))
  }

  /** The data rows write_consolidated_csv emits for input rows that raise
      no IndexError: the projection of each kept row, in input order. */
  function Emitted(skipEmptyArtist: bool, rows: seq<Row>): (emitted: seq<Row>)
    requires NoIndexError(skipEmptyArtist, rows)
    ensures |emitted| == |Kept(skipEmptyArtist, rows)|
  {
    KeptRowsFit(skipEmptyArtist, rows);
    TransformAll(Kept(skipEmptyArtist, rows))
  }

  /** What one more input row does to the filter's results. */
  lemma FilterStep(skipEmptyArtist: bool, rows: seq<Row>, i: nat)
    requires i < |rows|
    ensures IsDropped(skipEmptyArtist, rows[i]) ==>
              && Kept(skipEmptyArtist, rows[..i + 1]) == Kept(skipEmptyArtist, rows[..i])
              && SkippedCount(skipEmptyArtist, rows[..i + 1]) == SkippedCount(skipEmptyArtist, rows[..i]) + 1
    ensures !IsDropped(skipEmptyArtist, rows[i]) ==>
              && Kept(skipEmptyArtist, rows[..i + 1]) == Kept(skipEmptyArtist, rows[..i]) + [rows[i]]
              && SkippedCount(skipEmptyArtist, rows[..i + 1]) == SkippedCount(skipEmptyArtist, rows[..i])
    ensures NoIndexError(skipEmptyArtist, rows[..i]) && !RaisesIndexError(skipEmptyArtist, rows[i]) ==>
            NoIndexError(skipEmptyArtist, rows[..i + 1])
  {
    assert rows[..i + 1][..i] == rows[..i];
    assert rows[..i + 1] == rows[..i] + [rows[i]];
  }

  /** One more input row that raises no IndexError appends its projection
      to the emitted rows unless the filter drops it. */
  lemma EmittedStep(skipEmptyArtist: bool, rows: seq<Row>, i: nat)
    requires i < |rows| && NoIndexError(skipEmptyArtist, rows[..i + 1])
    ensures NoIndexError(skipEmptyArtist, rows[..i])
    ensures IsDropped(skipEmptyArtist, rows[i]) ==>
              Emitted(skipEmptyArtist, rows[..i + 1]) == Emitted(skipEmptyArtist, rows[..i])
    ensures !IsDropped(skipEmptyArtist, rows[i]) ==>
              && |rows[i]| > 16
              && Emitted(skipEmptyArtist, rows[..i + 1]) == Emitted(skipEmptyArtist, rows[..i]) + [TransformRow(rows[i])]
  {
    assert rows[..i + 1] == rows[..i] + [rows[i]];
    assert rows[i] in rows[..i + 1];
    FilterStep(skipEmptyArtist, rows, i);
  }

  /** Every row is either kept or counted as skipped. */
  lemma {:induction false} KeptPlusSkipped(skipEmptyArtist: bool, rows: seq<Row>)
    ensures |Kept(skipEmptyArtist, rows)| + SkippedCount(skipEmptyArtist, rows) == |rows|
  {
    if rows != [] {
      KeptPlusSkipped(skipEmptyArtist, rows[..|rows| - 1]);
    }
  }

  /** A row is kept exactly when it is an input row the filter does not drop. */
  lemma {:induction false} KeptMembership(skipEmptyArtist: bool, rows: seq<Row>, r: Row)
    ensures r in Kept(skipEmptyArtist, rows) <==> r in rows && !IsDropped(skipEmptyArtist, r)
  {
    if rows != [] {
      var init := rows[..|rows| - 1];
      KeptMembership(skipEmptyArtist, init, r);
      assert rows == init + [rows[|rows| - 1]];
    }
  }

  /** Filtering a concatenation filters each part and keeps their order. */
  lemma {:induction false} KeptAppend(skipEmptyArtist: bool, a: seq<Row>, b: seq<Row>)
    ensures Kept(skipEmptyArtist, a + b) == Kept(skipEmptyArtist, a) + Kept(skipEmptyArtist, b)
  {
    if b == [] {
      assert a + b == a;
    } else {
      var init := b[..|b| - 1];
      KeptAppend(skipEmptyArtist, a, init);
      assert (a + b)[..|a + b| - 1] == a + init;
    }
  }

  /** With the flag cleared nothing is dropped. */
  lemma {:induction false} NothingSkippedWithoutFlag(rows: seq<Row>)
    ensures Kept(false, rows) == rows
    ensures SkippedCount(false, rows) == 0
  {
    if rows != [] {
      NothingSkippedWithoutFlag(rows[..|rows| - 1]);
    }
  }

  /** Kept rows that raised no IndexError are long enough to project. */
  lemma KeptRowsFit(skipEmptyArtist: bool, rows: seq<Row>)
    requires NoIndexError(skipEmptyArtist, rows)
    ensures forall r :: r in Kept(skipEmptyArtist, rows) ==> |r| > 16
  {
  }

  /** With the flag set, every emitted data row names an artist. */
  lemma EmittedRowsHaveArtist(rows: seq<Row>)
    requires NoIndexError(true, rows)
    ensures forall out :: out in Emitted(true, rows) ==> out[0] != ""
  {
    var kept := Kept(true, rows);
    forall out | out in Emitted(true, rows) ensures out[0] != "" {
      var i :| 0 <= i < |kept| && TransformAll(kept)[i] == out;
      assert kept[i] in kept;
    }
  }

  class EventDataTransformer {
    const outputFile: Path
    const skipEmptyArtist: bool
    /** Rows dropped by every write so far; never reset. */
    var rowsSkipped: nat

    constructor (outputFile: Path, skipEmptyArtist: bool := true)
      ensures this.outputFile == outputFile && this.skipEmptyArtist == skipEmptyArtist
      ensures rowsSkipped == 0
    {
      this.outputFile := outputFile;
      this.skipEmptyArtist := skipEmptyArtist;
      rowsSkipped := 0;
    }

    /** write_consolidated_csv: returns the number of data rows written and
        the rows the artifact holds afterwards. Rows before the first one that
        raises IndexError are processed; that row aborts the call, leaving the
        header and the rows written so far in the artifact. */
    method WriteConsolidatedCsv(dataRows: seq<Row>) returns (r: Result<nat>, artifact: seq<Row>)
      modifies this
      ensures rowsSkipped >= old(rowsSkipped)
      ensures var k := FirstIndexError(skipEmptyArtist, dataRows);
              && artifact == [OUTPUT_COLUMNS] + Emitted(skipEmptyArtist, dataRows[..k])
              && rowsSkipped == old(rowsSkipped) + SkippedCount(skipEmptyArtist, dataRows[..k])
              && r == if k == |dataRows| then Ok(|Kept(skipEmptyArtist, dataRows)|) else Err(IndexOutOfRange)
    {
      artifact := [OUTPUT_COLUMNS];
      var rowsWritten := 0;
      var i := 0;
      while i < |dataRows|
        invariant 0 <= i <= |dataRows|
        invariant NoIndexError(skipEmptyArtist, dataRows[..i])
        invariant artifact == [OUTPUT_COLUMNS] + Emitted(skipEmptyArtist, dataRows[..i])
        invariant rowsWritten == |Kept(skipEmptyArtist, dataRows[..i])|
        invariant rowsSkipped == old(rowsSkipped) + SkippedCount(skipEmptyArtist, dataRows[..i])
      {
        var row := dataRows[i];
        FilterStep(skipEmptyArtist, dataRows, i);
        if skipEmptyArtist && |row| == 0 {
          FirstIndexErrorAt(skipEmptyArtist, dataRows, i);
          r := Err(IndexOutOfRange);
          return;
        }
        if ShouldSkipRow(skipEmptyArtist, row) {
          EmittedStep(skipEmptyArtist, dataRows, i);
          rowsSkipped := rowsSkipped + 1;
        } else if |row| <= 16 {
          FirstIndexErrorAt(skipEmptyArtist, dataRows, i);
          r := Err(IndexOutOfRange);
          return;
        } else {
          EmittedStep(skipEmptyArtist, dataRows, i);
          artifact := artifact + [TransformRow(row)];
          rowsWritten := rowsWritten + 1;
        }
        i := i + 1;
      }
      assert dataRows[..i] == dataRows;
      assert FirstIndexError(skipEmptyArtist, dataRows) == |dataRows| by {
        var k := FirstIndexError(skipEmptyArtist, dataRows);
        if k < |dataRows| {
          assert false;
        }
      }
      r := Ok(rowsWritten);
    }

    /** transform: writes the artifact and returns its path. */
    method Transform(dataRows: seq<Row>) returns (r: Result<Path>, artifact: seq<Row>)
      modifies this
      ensures var k := FirstIndexError(skipEmptyArtist, dataRows);
              && artifact == [OUTPUT_COLUMNS] + Emitted(skipEmptyArtist, dataRows[..k])
              && rowsSkipped == old(rowsSkipped) + SkippedCount(skipEmptyArtist, dataRows[..k])
              && r == if k == |dataRows| then Ok(outputFile) else Err(IndexOutOfRange)
    {
      var written;
      written, artifact := WriteConsolidatedCsv(dataRows);
      if written.Err? {
        r := Err(written.error);
      } else {
        r := Ok(outputFile);
      }
    }
  }
}
