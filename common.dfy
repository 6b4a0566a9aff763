/** Values shared by the extract, transform and load components: rows of
    fields, paths, an abstract file system and the exceptions the components
    raise, carried as a Result instead of being thrown. */
module Common {

  datatype Option<+T> = None | Some(value: T)

  /** Either a value or the exception the operation raises. */
  datatype Result<+T> = Ok(value: T) | Err(error: Error) {
    predicate IsFailure() { Err? }

    function PropagateFailure<U>(): Result<U>
      requires Err?
    {
      Err(error)
    }

    function Extract(): T
      requires Ok?
    {
      value
    }
  }

  /** The exceptions raised (or re-raised) by the core. */
  datatype Error =
    | FileNotFound(path: Path)      // FileNotFoundError: a constructor's existence check, or open() of a missing file
    | ReadFailed(path: Path)        // any other failure to open, decode or parse a file
    | MissingHeader(path: Path)     // StopIteration: next(reader) on a file with no row at all
    | IndexOutOfRange               // IndexError: a row has fewer fields than an index used on it
    | InvalidLiteral(text: string)  // ValueError: int() or float() of a malformed field
    | InsertRejected(table: string) // session.execute raised for an insert into this table
    | AttributeError(name: string)  // a method called on a configuration that is not a mapping

  type Path = string

  /** One parsed CSV line: its fields in order. */
  type Row = seq<string>

  /** What reading a file yields: its parsed rows, or a failure to open or parse it. */
  datatype FileContent = Unreadable | Rows(rows: seq<Row>)

  /** The part of the file system the core sees: existing folders and files. */
  datatype FileSystem = FileSystem(folders: set<Path>, files: map<Path, FileContent>) {

    /** Path.exists(): true for folders and files alike. */
    predicate Exists(p: Path) {
      p in folders || p in files
    }

    /** open() followed by reading every row through a csv reader. */
    function Read(p: Path): Result<seq<Row>> {
      if p in files then
        match files[p]
        case Rows(rows) => Ok(rows)
        case Unreadable => Err(ReadFailed(p))
      else if p in folders then Err(ReadFailed(p))
      else Err(FileNotFound(p))
    }
  }

  /** Opens a CSV file, consumes its header row with next(reader) and yields
      the remaining rows; both the extractor and the loader read files so. */
  function DataRows(fs: FileSystem, p: Path): (r: Result<seq<Row>>)
    ensures r.Ok? <==> p in fs.files && fs.files[p].Rows? && |fs.files[p].rows| > 0
    ensures r.Ok? ==> r.value == fs.files[p].rows[1..] && |r.value| == |fs.files[p].rows| - 1
    ensures !fs.Exists(p) ==> r == Err(FileNotFound(p))
  {
    var rows :- fs.Read(p);
    if |rows| == 0 then Err(MissingHeader(p)) else Ok(rows[1..])
  }
}
