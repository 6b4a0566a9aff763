# Event-data ETL into Cassandra: a Dafny model

This project models the batch ETL core of an event-data pipeline. The pipeline
has four parts:

- **Extractor.** It finds every `*.csv` file under a data folder, skips each
  file's header line, and concatenates the remaining raw event rows in file
  order.
- **Transformer.** It projects each raw row onto 11 canonical columns through a
  fixed column mapping. It drops rows whose artist field is empty when
  `skip_empty_artist` is set. It writes a consolidated artifact: a header row of
  the 11 column names, then one row per kept input row.
- **Loader.** It reads the artifact three times, once per destination table
  (`session_item`, `user_session`, `user_song`). It converts the fields each
  table needs with `int()`/`float()` and issues one INSERT per data row.
- **Configuration manager.** It looks up dotted keys such as `cassandra.hosts`
  in the loaded YAML document, and exposes its `cassandra`, `data` and `etl`
  sections.

Exceptions become values. Each fallible operation returns a `Result` whose
`Error` names the Python exception:

- `FileNotFoundError`
- `IndexError`
- `ValueError`
- `StopIteration` on a file without a header
- a failed insert
- `AttributeError`

The file system is the `FileSystem` value in `common.dfy`. It holds the
existing folders and, for each file, either its parsed CSV rows or
`Unreadable`. The recursive folder listing behind `rglob` is a parameter, so its
order is whatever the caller supplies.

The Cassandra session is the class `Load.Session`. Its state is the sequence of
inserts it has accepted. Whether it accepts the next one is a nondeterministic
choice, so every loader contract holds for every pattern of store failures.

Modules:

- `Common`: results, errors, rows, the file system, and reading a CSV file's data
  rows past its header.
- `Numbers`: `int()` and `float()` on field text.
- `Transform`: `EventDataTransformer`.
- `Extract`: `EventDataExtractor`.
- `Load`: `EventDataLoader` and the session.
- `Config`: `Config`.

The transformer and loader are classes whose methods update fields or the
session in place, and their loops are `while` loops with invariants. Each loop
is proved against a specification function:

- `Transform.Kept`, `Transform.Emitted` and `Transform.SkippedCount` for the
  transformer.
- `Extract.Extracted` for the extractor.
- `Load.Inserts` and `Load.TableLoaded` for the loader.
- `Config.Walk` for `Config.get`.

The properties the system promises are lemmas about those functions.

## Model

| member | source | states |
|---|---|---|
| Common.DataRows | src/etl/extract.py:63-65 | opening a file and taking `next(reader)` succeeds exactly when the file exists, parses and has at least one row; the result is every row after the header; a missing path fails with FileNotFoundError |
| Numbers.IntRoundTrip | src/etl/load.py:55 | the `int()` model parses back the decimal spelling of every integer |
| Numbers.ParseInt | src/etl/load.py:55 | `int()` accepts every plain digit run with a non-negative value; accepted texts end in a digit, and only a leading '-' yields a negative value |
| Numbers.ParseFloat | src/etl/load.py:55 | an accepted `float()` literal keeps the field's text as its value |
| Numbers.IntLiteralIsFloatLiteral | src/etl/load.py:55 | every text `int()` accepts, `float()` accepts too |
| Transform.ColumnMappingWellFormed | src/etl/transform.py:14-40 | the mapping's keys are exactly the 11 output columns; the positions are distinct, strictly increasing in output order, and at most 16 |
| Transform.ColumnIndex | src/etl/transform.py:28-40 | the position of a column name in the header row holds that name |
| Transform.ColumnPosition | src/etl/transform.py:28-40 | the header names no column twice, so each column's position is its own |
| Transform.TransformRow | src/etl/transform.py:69-81 | the projection has exactly 11 fields and starts with the raw artist field |
| Transform.TransformRowFollowsMapping | src/etl/transform.py:69-81 | output field i equals `row[COLUMN_MAPPING[OUTPUT_COLUMNS[i]]]` for every i |
| Transform.ShouldSkipRow | src/etl/transform.py:83-95 | never skips with the flag off; on a full row, skips exactly when the flag is on and the projected artist column is empty |
| Transform.FirstIndexError | src/etl/transform.py:118-124 | the position of the first row that raises IndexError: no earlier row raises, and the row there does |
| Transform.FirstIndexErrorAt | src/etl/transform.py:118-124 | a raising row with no raising row before it is the first one |
| Transform.Kept | src/etl/transform.py:118-121 | the kept rows are input rows not dropped by should_skip_row, and there are no more of them than inputs |
| Transform.SkippedCount | src/etl/transform.py:118-121 | the skip count is at most the number of rows, and 0 with the flag off |
| Transform.TransformAll | src/etl/transform.py:123 | one projection per row, the i-th being transform_row of the i-th row |
| Transform.Emitted | src/etl/transform.py:118-125 | the data rows written: as many as the kept rows |
| Transform.FilterStep | src/etl/transform.py:118-125 | one more row leaves the kept rows unchanged and adds one to the skip count when dropped; otherwise it appends itself to the kept rows |
| Transform.EmittedStep | src/etl/transform.py:118-125 | one more non-raising row appends its projection to the written rows unless it is dropped |
| Transform.KeptPlusSkipped | src/etl/transform.py:118-125 | rows written plus rows skipped equals rows processed |
| Transform.KeptMembership | src/etl/transform.py:118-121 | a row is kept by the filter exactly when it is an input row whose artist is not empty or the flag is off |
| Transform.KeptAppend | src/etl/transform.py:118-125 | filtering preserves input order: filtering a concatenation concatenates the filtered parts |
| Transform.NothingSkippedWithoutFlag | src/etl/transform.py:93-95 | with `skip_empty_artist` false every row is kept and nothing is counted as skipped |
| Transform.KeptRowsFit | src/etl/transform.py:118-123 | when no row raises, every kept row has the 17 fields the projection reads |
| Transform.EmittedRowsHaveArtist | src/etl/transform.py:118-124 | with the flag set, no written data row has an empty artist |
| Transform.EventDataTransformer.constructor | src/etl/transform.py:42-52 | stores the output path and flag (default true) and starts the skip counter at 0 |
| Transform.EventDataTransformer.WriteConsolidatedCsv | src/etl/transform.py:97-131 | the artifact is the header then the projections of the kept rows before the first IndexError; `rows_skipped` grows by the rows dropped there; the result is the kept count, or IndexError |
| Transform.EventDataTransformer.Transform | src/etl/transform.py:133-146 | the same artifact and counter; returns the output path, or re-raises IndexError |
| Extract.NewExtractor | src/etl/extract.py:13-26 | succeeds exactly when the data folder exists, else FileNotFoundError |
| Extract.GetFilePaths | src/etl/extract.py:30-43 | the paths returned are exactly the listed paths matching `*.csv`, no more of them than listed |
| Extract.GetFilePathsAppend | src/etl/extract.py:37 | the filter keeps listing order: the CSV paths of a concatenated listing are those of each part, in order |
| Extract.GetFilePathsSingleton | src/etl/extract.py:37 | a single listed path is returned exactly when it matches `*.csv` |
| Extract.GetFilePathsDistinct | src/etl/extract.py:37 | a listing that names each file once yields each CSV path once |
| Extract.Extracted | src/etl/extract.py:45-80 | the specification of extract_rows: a successful result means every file was readable with a header |
| Extract.ExtractedSucceedsIff | src/etl/extract.py:61-77 | extraction succeeds exactly when every file can be read and has a header row |
| Extract.ExtractedFailsAtFirstBadFile | src/etl/extract.py:61-77 | a failure carries the error of the first bad file, and every file before it was readable |
| Extract.ExtractedLength | src/etl/extract.py:61-80 | the number of extracted rows is the sum over files of (rows - 1) |
| Extract.ExtractedRowPosition | src/etl/extract.py:61-71 | data row j of file i appears unchanged right after the data rows of the files before it |
| Extract.ExtractedStopsAtFailure | src/etl/extract.py:75-77 | a failing file aborts the whole extraction; the files after it change nothing |
| Extract.ExtractRows | src/etl/extract.py:45-80 | the loop's result equals the specification `Extracted` |
| Extract.Extract | src/etl/extract.py:82-93 | extraction of the CSV files found in the listing |
| Extract.ExtractNoCsvFiles | src/etl/extract.py:37-43 | a folder without CSV files yields no rows and no error |
| Load.Field | src/etl/load.py:55 | `line[i]`, or IndexError exactly when the line is too short |
| Load.IntField | src/etl/load.py:55 | `int(line[i])`: succeeds exactly when the field exists and parses, with the parsed value |
| Load.FloatField | src/etl/load.py:55 | `float(line[i])`: succeeds exactly when the field exists and is a decimal literal |
| Load.SessionItemTuple | src/etl/load.py:54-56 | the session_item tuple converts exactly when the line has 10 fields and fields 8, 3 (int) and 5 (float) parse, and it carries those values; a line of at most 8 fields raises IndexError first, and a malformed field 8 raises ValueError first |
| Load.UserSessionTuple | src/etl/load.py:88-99 | the user_session tuple converts exactly when the line has 11 fields and fields 8, 10 and 3 parse, and it carries those values |
| Load.UserSongTuple | src/etl/load.py:130 | the user_song tuple converts exactly when the line has 11 fields and field 10 parses, and it carries those values |
| Load.Tuple | src/etl/load.py:32-137 | the tuple for table t is that table's INSERT; a line of at most 8 fields raises IndexError for every table |
| Load.FailsAt | src/etl/load.py:52-60 | the exception a row's load re-raises: any error other than the table's rejected insert is the row's own conversion error |
| Load.Inserts | src/etl/load.py:52-57 | one insert per converted line |
| Load.InsertsStep | src/etl/load.py:52-57 | one more converted line appends its insert |
| Load.TableLoaded | src/etl/load.py:46-63 | the outcome of one table load: inserts are only ever appended to the session, and a success appends exactly as many as it counts |
| Load.PartiallyLoaded | src/etl/load.py:139-157 | the outcome of a failed load_all_tables: inserts are only appended, the fully loaded tables' come first, and the error is the failing row's |
| Load.Session.Execute | src/etl/load.py:54-60 | the session either records the insert or raises and records nothing |
| Load.EventDataLoader.constructor | src/etl/load.py:13-25 | stores the session and the artifact path |
| Load.NewEventDataLoader | src/etl/load.py:13-28 | fails with FileNotFoundError exactly when the artifact does not exist |
| Load.EventDataLoader.LoadTable | src/etl/load.py:46-63 | on success, one insert per data row in file order, counted; on failure at a data row, exactly the inserts of the rows before it remain, and the error is that row's conversion error or the rejected insert |
| Load.EventDataLoader.LoadSessionItemTable | src/etl/load.py:32-63 | LoadTable for session_item |
| Load.EventDataLoader.LoadUserSessionTable | src/etl/load.py:65-106 | LoadTable for user_session |
| Load.EventDataLoader.LoadUserSongTable | src/etl/load.py:108-137 | LoadTable for user_song |
| Load.EventDataLoader.LoadAllTables | src/etl/load.py:139-157 | on success, a map from each of the three table names to its count (all equal to the data rows), with the three tables' inserts in that order; on failure, the fully loaded tables' inserts then those of the failing table's rows before the failing row, and the error returned is that row's conversion error or rejected insert, or the artifact's read error |
| Load.LoaderReadsNamedColumns | src/etl/load.py:41-130 | on an artifact row, each table's tuple takes the header columns its INSERT names (sessionId, itemInSession, userId, artist, song, length, firstName, lastName), converting exactly when those numeric columns parse |
| Load.TransformedRowLoads | src/etl/load.py:54-130 | a projected raw row converts for each table exactly when its raw sessionId, itemInSession, userId and length fields parse, and each insert carries the raw row's values |
| Load.ArtifactLoad | src/etl/load.py:48-63 | the loader reads back exactly the data rows the transformer wrote; a successful table load inserts one tuple per kept raw row, in order, and its count plus the transformer's skip count is the number of raw rows |
| Config.Split | src/utils/config.py:39 | `key.split(".")`: at least one piece, no piece contains a dot, and joining the pieces with dots gives the key back |
| Config.SplitJoin | src/utils/config.py:39 | splitting undoes joining for dot-free pieces |
| Config.SplitDotFreeKey | src/utils/config.py:39 | a key without a dot splits into the single key, so get of a section name is a one-step walk |
| Config.Walk | src/utils/config.py:39-48 | the specification of get: with a non-mapping default, the result is the default or the value stored at the path |
| Config.WalkFindsPresentPath | src/utils/config.py:39-48 | when every key is present along nested mappings, get returns the value at the end of the path |
| Config.WalkStopsAtNonMapping | src/utils/config.py:43-46 | meeting a non-mapping while keys remain returns the default |
| Config.WalkWithPlainDefault | src/utils/config.py:44-48 | with a non-mapping default, get returns the value stored at the path if there is one, else the default |
| Config.WalkContinuesInsideDefault | src/utils/config.py:44 | a missing intermediate key with a mapping default continues the walk inside the default |
| Config.MappingDefaultExample | src/utils/config.py:44 | `get("cassandra.hosts", {"hosts": "x"})` on an empty document returns `"x"`, not the default |
| Config.WalkOnNonMappingDocument | src/utils/config.py:40-46 | a document that is not a mapping answers every key with the default |
| Config.Section | src/utils/config.py:51-63 | a section is AttributeError exactly when the document is not a mapping; otherwise it is the single-key get with default `{}`, and `{}` when absent |
| Config.Config.constructor | src/utils/config.py:13-16 | holds the loaded document |
| Config.Config.Get | src/utils/config.py:28-48 | the loop's result equals the specification `Walk` over the split key, with default `None` unless given; it changes nothing |
| Config.Config.Cassandra | src/utils/config.py:50-53 | the `cassandra` section: AttributeError exactly when the document is not a mapping, else the one-step walk of `get("cassandra", {})` |
| Config.Config.Data | src/utils/config.py:55-58 | the `data` section, likewise |
| Config.Config.Etl | src/utils/config.py:60-63 | the `etl` section, likewise |

## Left out

- The orchestration, schema, connection and logging modules, and the CLI, are not part of this model.
- The connection module's session lifetime is not modelled. The session is a
  log of accepted inserts, and whether it accepts the next one is an unknown
  choice.
- Logging is left out. This includes the informational counters
  `files_processed` and `file_row_count`, and the "no CSV files" warning.
- `Config._load_config` is left out because it is YAML parsing and file I/O. The
  constructor takes the loaded document instead.
- The YAML document's mappings are keyed by strings. YAML's non-string keys are
  not modelled.
- CSV quoting, dialect registration and line splitting are left out. A file is
  its sequence of parsed rows, and the artifact is the sequence of rows handed
  to the CSV writer.
- A decoding or parsing failure part-way through a file is not modelled as a
  separate case. Such a file is `Unreadable` as a whole, and the extractor,
  which fails atomically, reports it exactly like a file that cannot be opened.
- The loader reads a file as a whole too. An artifact that fails part-way
  through a later read is not modelled.
- Creating the output directory in the transformer's constructor is left out.
  So are failures to open the output file for writing.
- The ordering of the recursive `rglob` listing is a parameter.
- Numbers.ParseInt: models `int()` as an optional sign followed by ASCII decimal
  digits. It does not accept Python's surrounding whitespace, digit-group
  underscores or non-ASCII digits.
- Numbers.ParseFloat: models `float()` as an optional sign and a decimal literal
  with at most one point and at least one digit. Exponents, `inf`/`nan` and
  whitespace are not accepted. The floating-point value is kept as the field's
  text, because floating point is not modelled.
- Transform.EventDataTransformer.WriteConsolidatedCsv: write_consolidated_csv
  does not check row length (src/etl/transform.py:118-124), so the model has no
  precondition on it. A kept row with 16 or fewer fields, or an empty row when
  the flag is set, raises IndexError, and the rows written before it stay in
  the artifact.
- Load.EventDataLoader.LoadTable: a failed insert re-raises
  (src/etl/load.py:52-60), but the earlier inserts of that table stay in the
  store. `TableLoaded` keeps them in the session's log.
- Load.ArtifactLoad: assumes the loader reads back the rows the transformer
  wrote. The writer opens the artifact with `newline=""`
  (src/etl/transform.py:111) and the loader opens it without
  (src/etl/load.py:48). So a quoted field holding `\r\n` or `\r` would read back
  with `\n`. Newline translation is not modelled.
- Transform.EventDataTransformer.Transform: returns the output path as given.
  `str(Path(output_file))` (src/etl/transform.py:50, 146) normalises the path,
  for example dropping `./` and repeated slashes. Path normalisation is not
  modelled.
- YAML floats, timestamps and dates are not among the modelled configuration
  values. They are leaves like strings and integers, and only mappings are
  walked into.
