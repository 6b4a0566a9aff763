/** EventDataExtractor: finds the CSV files under a data folder and reads
    their data rows, in file order, into one sequence. The recursive folder
    listing is a parameter; reading a file is FileSystem.Read. */
module Extract {
  import opened Common

  datatype EventDataExtractor = EventDataExtractor(dataFolder: Path)

  /** The constructor: fails with FileNotFoundError when the folder does not exist. */
  function NewExtractor(fs: FileSystem, dataFolder: Path): (r: Result<EventDataExtractor>)
    ensures r.Ok? <==> fs.Exists(dataFolder)
    ensures r.Ok? ==> r.value.dataFolder == dataFolder
    ensures r.Err? ==> r.error == FileNotFound(dataFolder)
  {
    if fs.Exists(dataFolder) then Ok(EventDataExtractor(dataFolder)) else Err(FileNotFound(dataFolder))
  }

  /** Matches the glob pattern "*.csv". */
  predicate IsCsv(p: Path) {
    |p| >= 4 && p[|p| - 4..] == ".csv"
  }

  /** get_file_paths: the CSV files among the recursive listing of the data
      folder, in listing order. */
  function GetFilePaths(listing: seq<Path>): (paths: seq<Path>)
    ensures |paths| <= |listing|
    ensures forall p :: p in paths <==> p in listing && IsCsv(p)
  {
    if listing == [] then []
    else
      var rest := GetFilePaths(listing[1..]);
      assert listing == [listing[0]] + listing[1..];
      if IsCsv(listing[0]) then [listing[0]] + rest else rest
  }

  /** Listing order is kept: the CSV paths of a concatenated listing are those
      of the first part, then those of the second. */
  lemma {:induction false} GetFilePathsAppend(a: seq<Path>, b: seq<Path>)
    ensures GetFilePaths(a + b) == GetFilePaths(a) + GetFilePaths(b)
  {
    if a == [] {
      assert a + b == b;
    } else {
      assert (a + b)[0] == a[0];
      assert (a + b)[1..] == a[1..] + b;
      GetFilePathsAppend(a[1..], b);
    }
  }

  /** A one-entry listing yields that entry exactly when it is a CSV file. */
  lemma GetFilePathsSingleton(p: Path)
    ensures GetFilePaths([p]) == if IsCsv(p) then [p] else []
  {
  }

  /** No path appears twice in the sequence. */
  predicate Distinct(s: seq<Path>) {
    forall i, j :: 0 <= i < j < |s| ==> s[i] != s[j]
  }

  /** A listing that names each file once yields each CSV path once, so no
      file is read twice. */
  lemma {:induction false} GetFilePathsDistinct(listing: seq<Path>)
    requires Distinct(listing)
    ensures Distinct(GetFilePaths(listing))
  {
    if listing != [] {
      var rest := GetFilePaths(listing[1..]);
      assert Distinct(listing[1..]) by {
        forall i, j | 0 <= i < j < |listing[1..]|
          ensures listing[1..][i] != listing[1..][j]
        {
          assert listing[1..][i] == listing[i + 1] && listing[1..][j] == listing[j + 1];
        }
      }
      GetFilePathsDistinct(listing[1..]);
      if IsCsv(listing[0]) {
        assert listing[0] !in listing[1..] by {
          forall k | 0 <= k < |listing[1..]|
            ensures listing[1..][k] != listing[0]
          {
            assert listing[1..][k] == listing[k + 1];
          }
        }
        assert listing[0] !in rest;
        var paths := [listing[0]] + rest;
        forall i, j | 0 <= i < j < |paths|
          ensures paths[i] != paths[j]
        {
          if i == 0 {
            assert paths[j] == rest[j - 1] && paths[j] in rest;
          } else {
            assert paths[i] == rest[i - 1] && paths[j] == rest[j - 1];
          }
        }
      }
    }
  }

  /** What extract_rows returns for these files: the data rows of each file,
      concatenated in file order; the first file that cannot be read or has
      no header row makes the whole call fail with that file's error. */
  function Extracted(fs: FileSystem, paths: seq<Path>): (r: Result<seq<Row>>)
    ensures r.Ok? ==> AllReadable(fs, paths)
  {
    if paths == [] then Ok([])
    else
      var before :- Extracted(fs, paths[..|paths| - 1]);
      var rows :- DataRows(fs, paths[|paths| - 1]);
      Ok(before + rows)
  }

  /** Every file in the list can be read and has a header row. */
  predicate AllReadable(fs: FileSystem, paths: seq<Path>) {
    forall p :: p in paths ==> DataRows(fs, p).Ok?
  }

  /** The number of data rows in the files: the sum of (rows - 1). */
  function DataRowCount(fs: FileSystem, paths: seq<Path>): nat
    requires AllReadable(fs, paths)
  {
    if paths == [] then 0
    else DataRowCount(fs, paths[..|paths| - 1]) + |DataRows(fs, paths[|paths| - 1]).value|
  }

  /** Extraction succeeds exactly when every file is readable and has a header row. */
  lemma {:induction false} ExtractedSucceedsIff(fs: FileSystem, paths: seq<Path>)
    ensures Extracted(fs, paths).Ok? <==> AllReadable(fs, paths)
  {
    if paths != [] {
      var init := paths[..|paths| - 1];
      ExtractedSucceedsIff(fs, init);
      assert paths == init + [paths[|paths| - 1]];
    }
  }

  /** A failed extraction reports the error of the first failing file, and
      every file before it was readable. */
  lemma {:induction false} ExtractedFailsAtFirstBadFile(fs: FileSystem, paths: seq<Path>)
    requires Extracted(fs, paths).Err?
    ensures exists i :: 0 <= i < |paths| && AllReadable(fs, paths[..i]) && DataRows(fs, paths[i]).Err? &&
                        Extracted(fs, paths).error == DataRows(fs, paths[i]).error
  {
    var n := |paths|;
    var init := paths[..n - 1];
    if Extracted(fs, init).Err? {
      ExtractedFailsAtFirstBadFile(fs, init);
      var i :| 0 <= i < |init| && AllReadable(fs, init[..i]) && DataRows(fs, init[i]).Err? &&
               Extracted(fs, init).error == DataRows(fs, init[i]).error;
      assert init[..i] == paths[..i];
    } else {
      ExtractedSucceedsIff(fs, init);
      assert paths[..n - 1] == init;
    }
  }

  /** The result holds as many rows as the files hold data rows. */
  lemma {:induction false} ExtractedLength(fs: FileSystem, paths: seq<Path>)
    requires Extracted(fs, paths).Ok?
    ensures AllReadable(fs, paths)
    ensures |Extracted(fs, paths).value| == DataRowCount(fs, paths)
  {
    ExtractedSucceedsIff(fs, paths);
    if paths != [] {
      ExtractedLength(fs, paths[..|paths| - 1]);
    }
  }

  /** Data row j of file i (row j + 1 of the file, past its header) sits,
      unchanged, right after the data rows of the files before it. */
  lemma {:induction false} ExtractedRowPosition(fs: FileSystem, paths: seq<Path>, i: nat, j: nat)
    requires AllReadable(fs, paths)
    requires i < |paths| && j < |DataRows(fs, paths[i]).value|
    ensures AllReadable(fs, paths[..i]) && Extracted(fs, paths).Ok?
    ensures DataRowCount(fs, paths[..i]) + j < |Extracted(fs, paths).value|
    ensures Extracted(fs, paths).value[DataRowCount(fs, paths[..i]) + j] == fs.files[paths[i]].rows[j + 1]
  {
    var n := |paths|;
    var init := paths[..n - 1];
    ExtractedSucceedsIff(fs, paths);
    ExtractedSucceedsIff(fs, init);
    ExtractedLength(fs, init);
    if i < n - 1 {
      assert init[..i] == paths[..i];
      ExtractedRowPosition(fs, init, i, j);
    } else {
      assert init == paths[..i];
    }
  }

  /** extract_rows: for each file in order, open it, skip its header and append its remaining rows. */
  method ExtractRows(fs: FileSystem, filePaths: seq<Path>) returns (r: Result<seq<Row>>)
    ensures r == Extracted(fs, filePaths)
  {
    var dataRows: seq<Row> := [];
    var i := 0;
    while i < |filePaths|
      invariant 0 <= i <= |filePaths|
      invariant Extracted(fs, filePaths[..i]) == Ok(dataRows)
    {
      var path := filePaths[i];
      assert filePaths[..i + 1][..i] == filePaths[..i];
      var lines := fs.Read(path);
      if lines.Err? {
        r := Err(lines.error);
        ExtractedStopsAtFailure(fs, filePaths, i + 1);
        return;
      }
      if |lines.value| == 0 {
        r := Err(MissingHeader(path));
        ExtractedStopsAtFailure(fs, filePaths, i + 1);
        return;
      }
      var j := 1;
      ghost var before := dataRows;
      while j < |lines.value|
        invariant 1 <= j <= |lines.value|
        invariant dataRows == before + lines.value[1..j]
      {
        dataRows := dataRows + [lines.value[j]];
        j := j + 1;
        assert lines.value[1..j] == lines.value[1..j - 1] + [lines.value[j - 1]];
      }
      assert lines.value[1..j] == DataRows(fs, path).value;
      assert Extracted(fs, filePaths[..i + 1]) == Ok(before + DataRows(fs, path).value);
      i := i + 1;
    }
    assert filePaths[..i] == filePaths;
    r := Ok(dataRows);
  }

  /** Once a prefix of the file list fails, the whole list fails the same way. */
  lemma {:induction false} ExtractedStopsAtFailure(fs: FileSystem, paths: seq<Path>, n: nat)
    requires n <= |paths| && Extracted(fs, paths[..n]).Err?
    ensures Extracted(fs, paths) == Extracted(fs, paths[..n])
    decreases |paths| - n
  {
    if n < |paths| {
      assert paths[..n + 1][..n] == paths[..n];
      ExtractedStopsAtFailure(fs, paths, n + 1);
    } else {
      assert paths[..n] == paths;
    }
  }

  /** extract: discover the CSV files under the folder, then read them. */
  method Extract(fs: FileSystem, listing: seq<Path>) returns (r: Result<seq<Row>>)
    ensures r == Extracted(fs, GetFilePaths(listing))
  {
    var filePaths := GetFilePaths(listing);
    r := ExtractRows(fs, filePaths);
  }

  /** A folder without CSV files yields no rows and no error. */
  lemma ExtractNoCsvFiles(fs: FileSystem, listing: seq<Path>)
    requires forall p :: p in listing ==> !IsCsv(p)
    ensures Extracted(fs, GetFilePaths(listing)) == Ok([])
  {
  }
}
