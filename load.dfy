/** EventDataLoader: reads the consolidated artifact once per destination
    table and inserts one typed tuple per data row into that table through
    the store session. The session is modelled by the sequence of inserts it
    has accepted; whether it accepts the next one is not known in advance. */
module Load {
  import opened Common
  import opened Numbers
  import Transform

  /** The three destination tables, in the order load_all_tables fills them. */
  datatype Table = SessionItem | UserSession | UserSong {
    function Name(): string {
      match this
      case SessionItem => "session_item"
      case UserSession => "user_session"
      case UserSong => "user_song"
    }
  }

  /** One executed INSERT, with the values bound to its placeholders. */
  datatype Statement =
    | SessionItemInsert(sessionId: int, itemInSession: int, artist: string, song: string, length: Float)
    | UserSessionInsert(sessionId: int, userId: int, itemInSession: int, artist: string, song: string,
                        firstName: string, lastName: string)
    | UserSongInsert(song: string, userId: int, firstName: string, lastName: string)

  /** line[i], or IndexError. */
  function Field(line: Row, i: nat): (r: Result<string>)
    ensures r.Ok? <==> i < |line|
    ensures r.Ok? ==> r.value == line[i]
  {
    if i < |line| then Ok(line[i]) else Err(IndexOutOfRange)
  }

  /** int(line[i]), or the IndexError or ValueError it raises. */
  function IntField(line: Row, i: nat): (r: Result<int>)
    ensures r.Ok? <==> i < |line| && ParseInt(line[i]).Some?
    ensures r.Ok? ==> r.value == ParseInt(line[i]).value
  {
    var text :- Field(line, i);
    match ParseInt(text)
    case Some(v) => Ok(v)
    case None => Err(InvalidLiteral(text))
  }

  /** float(line[i]), or the IndexError or ValueError it raises. */
  function FloatField(line: Row, i: nat): (r: Result<Float>)
    ensures r.Ok? <==> i < |line| && ParseFloat(line[i]).Some?
    ensures r.Ok? ==> r.value == Float(line[i])
  {
    var text :- Field(line, i);
    match ParseFloat(text)
    case Some(v) => Ok(v)
    case None => Err(InvalidLiteral(text))
  }

  /** The session_item tuple (int(l[8]), int(l[3]), l[0], l[9], float(l[5])),
      its elements converted left to right. */
  function SessionItemTuple(line: Row): (r: Result<Statement>)
    ensures r.Ok? <==> |line| > 9 && ParseInt(line[8]).Some? && ParseInt(line[3]).Some? && ParseFloat(line[5]).Some?
    ensures |line| <= 8 ==> r == Err(IndexOutOfRange)
    ensures |line| > 8 && ParseInt(line[8]).None? ==> r == Err(InvalidLiteral(line[8]))
    ensures r.Ok? ==> r.value == SessionItemInsert(ParseInt(line[8]).value, ParseInt(line[3]).value,
                                                   line[0], line[9], Float(line[5]))
  {
    var sessionId :- IntField(line, 8);
    var itemInSession :- IntField(line, 3);
    // line[0] cannot fail once line[8] exists
    var song :- Field(line, 9);
    var length :- FloatField(line, 5);
    Ok(SessionItemInsert(sessionId, itemInSession, line[0], song, length))
  }

  /** The user_session tuple (int(l[8]), int(l[10]), int(l[3]), l[0], l[9], l[1], l[4]). */
  function UserSessionTuple(line: Row): (r: Result<Statement>)
    ensures r.Ok? <==> |line| > 10 && ParseInt(line[8]).Some? && ParseInt(line[10]).Some? && ParseInt(line[3]).Some?
    ensures |line| <= 8 ==> r == Err(IndexOutOfRange)
    ensures |line| > 8 && ParseInt(line[8]).None? ==> r == Err(InvalidLiteral(line[8]))
    ensures r.Ok? ==> r.value == UserSessionInsert(ParseInt(line[8]).value, ParseInt(line[10]).value,
                                                   ParseInt(line[3]).value, line[0], line[9], line[1], line[4])
  {
    var sessionId :- IntField(line, 8);
    var userId :- IntField(line, 10);
    var itemInSession :- IntField(line, 3);
    // the remaining indices are all below 10, so they cannot fail
    Ok(UserSessionInsert(sessionId, userId, itemInSession, line[0], line[9], line[1], line[4]))
  }

  /** The user_song tuple (l[9], int(l[10]), l[1], l[4]). */
  function UserSongTuple(line: Row): (r: Result<Statement>)
    ensures r.Ok? <==> |line| > 10 && ParseInt(line[10]).Some?
    ensures |line| <= 9 ==> r == Err(IndexOutOfRange)
    ensures r.Ok? ==> r.value == UserSongInsert(line[9], ParseInt(line[10]).value, line[1], line[4])
  {
    var song :- Field(line, 9);
    var userId :- IntField(line, 10);
    Ok(UserSongInsert(song, userId, line[1], line[4]))
  }

  /** The insert for table t built from one line. */
  function Tuple(t: Table, line: Row): (r: Result<Statement>)
    ensures r.Ok? ==> (r.value.SessionItemInsert? <==> t == SessionItem) &&
                      (r.value.UserSessionInsert? <==> t == UserSession) &&
                      (r.value.UserSongInsert? <==> t == UserSong)
    ensures |line| <= 8 ==> r == Err(IndexOutOfRange)
  {
    match t
    case SessionItem => SessionItemTuple(line)
    case UserSession => UserSessionTuple(line)
    case UserSong => UserSongTuple(line)
  }

  /** Every line converts to a tuple for table t. */
  predicate AllConvert(t: Table, lines: seq<Row>) {
    forall i :: 0 <= i < |lines| ==> Tuple(t, lines[i]).Ok?
  }

  /** The inserts for these lines, in order. */
  function Inserts(t: Table, lines: seq<Row>): (s: seq<Statement>)
    requires AllConvert(t, lines)
    ensures |s| == |lines|
  {
    seq(|lines|, i requires 0 <= i < |lines| => Tuple(t, lines[i]).value)
  }

  /** How the load of line k can fail: its tuple does not convert, or the
      session rejects its insert. */
  predicate FailsAt(t: Table, line: Row, e: Error)
    ensures FailsAt(t, line, e) && e != InsertRejected(t.Name()) ==> Tuple(t, line) == Err(e)
  {
    match Tuple(t, line)
    case Err(conversion) => e == conversion
    case Ok(_) => e == InsertRejected(t.Name())
  }

  /** The outcome of one load_*_table call on the artifact's data rows
      `input`, moving the session from `before` to `after` with result `r`.
      Success inserts one tuple per data row and counts them; a failure at
      data row k leaves exactly the inserts of the rows before k. */
  ghost predicate TableLoaded(t: Table, input: Result<seq<Row>>, before: seq<Statement>,
                              after: seq<Statement>, r: Result<nat>)
    ensures TableLoaded(t, input, before, after, r) ==> before <= after
    ensures TableLoaded(t, input, before, after, r) && r.Ok? ==> |after| == |before| + r.value
  {
    match input
    case Err(e) => r == Err(e) && after == before
    case Ok(data) =>
      && (r.Ok? ==> AllConvert(t, data) && r.value == |data| && after == before + Inserts(t, data))
      && (r.Err? ==> exists k :: 0 <= k < |data| && AllConvert(t, data[..k]) &&
                                after == before + Inserts(t, data[..k]) && FailsAt(t, data[k], r.error))
  }

  /** The store session: the inserts it has accepted so far, in order. */
  class Session {
    var log: seq<Statement>

    constructor ()
      ensures log == []
    {
      log := [];
    }

    /** session.execute: the store either accepts the insert or raises. */
    method Execute(stmt: Statement) returns (ok: bool)
      modifies this
      ensures log == if ok then old(log) + [stmt] else old(log)
    {
      ok :| true;
      if ok {
        log := log + [stmt];
      }
    }
  }

  class EventDataLoader {
    const session: Session
    const dataFile: Path

    constructor (session: Session, dataFile: Path)
      ensures this.session == session && this.dataFile == dataFile
    {
      this.session := session;
      this.dataFile := dataFile;
    }

    /** The shared loop of the load_*_table methods: skip the header row,
        then convert and insert each data row, counting the inserts; the first
        conversion or insert failure is re-raised. */
    method LoadTable(t: Table, fs: FileSystem) returns (r: Result<nat>)
      modifies session
      ensures TableLoaded(t, DataRows(fs, dataFile), old(session.log), session.log, r)
    {
      var lines := fs.Read(dataFile);
      if lines.Err? {
        return Err(lines.error);
      }
      if |lines.value| == 0 {
        return Err(MissingHeader(dataFile));
      }
      var data := lines.value[1..];
      var rowsInserted := 0;
      while rowsInserted < |data|
        invariant rowsInserted <= |data|
        invariant AllConvert(t, data[..rowsInserted])
        invariant session.log == old(session.log) + Inserts(t, data[..rowsInserted])
      {
        var line := data[rowsInserted];
        var tuple := Tuple(t, line);
        if tuple.Err? {
          r := Err(tuple.error);
          return;
        }
        var ok := session.Execute(tuple.value);
        if !ok {
          r := Err(InsertRejected(t.Name()));
          return;
        }
        InsertsStep(t, data, rowsInserted);
        rowsInserted := rowsInserted + 1;
      }
      assert data[..rowsInserted] == data;
      r := Ok(rowsInserted);
    }

    /** load_session_item_table. */
    method LoadSessionItemTable(fs: FileSystem) returns (r: Result<nat>)
      modifies session
      ensures TableLoaded(SessionItem, DataRows(fs, dataFile), old(session.log), session.log, r)
    {
      r := LoadTable(SessionItem, fs);
    }

    /** load_user_session_table. */
    method LoadUserSessionTable(fs: FileSystem) returns (r: Result<nat>)
      modifies session
      ensures TableLoaded(UserSession, DataRows(fs, dataFile), old(session.log), session.log, r)
    {
      r := LoadTable(UserSession, fs);
    }

    /** load_user_song_table. */
    method LoadUserSongTable(fs: FileSystem) returns (r: Result<nat>)
      modifies session
      ensures TableLoaded(UserSong, DataRows(fs, dataFile), old(session.log), session.log, r)
    {
      r := LoadTable(UserSong, fs);
    }

    /** load_all_tables: the three loads in order; a failure skips the rest. */
    method LoadAllTables(fs: FileSystem) returns (r: Result<map<string, nat>>)
      modifies session
      ensures r.Ok? ==>
                && DataRows(fs, dataFile).Ok?
                && var data := DataRows(fs, dataFile).value;
                && r.value == map["session_item" := |data|, "user_session" := |data|, "user_song" := |data|]
                && AllConvert(SessionItem, data) && AllConvert(UserSession, data) && AllConvert(UserSong, data)
                && session.log == old(session.log) + Inserts(SessionItem, data) + Inserts(UserSession, data)
                                                   + Inserts(UserSong, data)
      ensures r.Err? ==> PartiallyLoaded(DataRows(fs, dataFile), old(session.log), session.log, r.error)
    {
      var sessionItem := LoadSessionItemTable(fs);
      if sessionItem.Err? {
        r := Err(sessionItem.error);
        return;
      }
      var userSession := LoadUserSessionTable(fs);
      if userSession.Err? {
        r := Err(userSession.error);
        return;
      }
      var userSong := LoadUserSongTable(fs);
      if userSong.Err? {
        r := Err(userSong.error);
        return;
      }
      r := Ok(map["session_item" := sessionItem.value, "user_session" := userSession.value,
                  "user_song" := userSong.value]);
    }
  }

  /** After a failed load_all_tables with error e: the session holds the
      inserts of the tables loaded in full, in order, then the inserts of the
      failing table's rows before the row k that raised e. */
  ghost predicate PartiallyLoaded(input: Result<seq<Row>>, before: seq<Statement>, after: seq<Statement>, e: Error)
    ensures PartiallyLoaded(input, before, after, e) ==> before <= after
  {
    match input
    case Err(readError) => e == readError && after == before
    case Ok(data) =>
      exists k :: 0 <= k < |data| && (
        || (AllConvert(SessionItem, data[..k]) && FailsAt(SessionItem, data[k], e) &&
            after == before + Inserts(SessionItem, data[..k]))
        || (AllConvert(SessionItem, data) && AllConvert(UserSession, data[..k]) && FailsAt(UserSession, data[k], e) &&
            after == before + Inserts(SessionItem, data) + Inserts(UserSession, data[..k]))
        || (AllConvert(SessionItem, data) && AllConvert(UserSession, data) && AllConvert(UserSong, data[..k]) &&
            FailsAt(UserSong, data[k], e) &&
            after == before + Inserts(SessionItem, data) + Inserts(UserSession, data) + Inserts(UserSong, data[..k])))
  }

  /** One more converted line appends its insert. */
  lemma InsertsStep(t: Table, lines: seq<Row>, k: nat)
    requires k < |lines| && AllConvert(t, lines[..k]) && Tuple(t, lines[k]).Ok?
    ensures AllConvert(t, lines[..k + 1])
    ensures Inserts(t, lines[..k + 1]) == Inserts(t, lines[..k]) + [Tuple(t, lines[k]).value]
  {
    assert lines[..k + 1] == lines[..k] + [lines[k]];
  }

  /** The loader's constructor: fails with FileNotFoundError, before any
      insert, when the artifact does not exist. */
  method NewEventDataLoader(session: Session, dataFile: Path, fs: FileSystem) returns (r: Result<EventDataLoader>)
    ensures r.Err? <==> !fs.Exists(dataFile)
    ensures r.Err? ==> r.error == FileNotFound(dataFile)
    ensures r.Ok? ==> fresh(r.value) && r.value.session == session && r.value.dataFile == dataFile
  {
    if !fs.Exists(dataFile) {
      return Err(FileNotFound(dataFile));
    }
    var loader := new EventDataLoader(session, dataFile);
    r := Ok(loader);
  }

  /** Each tuple builder reads, from an artifact row, the columns its
      table's INSERT names, as the header row names them. */
  lemma LoaderReadsNamedColumns(out: Row)
    requires |out| == |Transform.OUTPUT_COLUMNS|
    ensures var sessionId, itemInSession := ParseInt(out[Transform.ColumnIndex("sessionId")]),
                                            ParseInt(out[Transform.ColumnIndex("itemInSession")]);
            var length := out[Transform.ColumnIndex("length")];
            && (SessionItemTuple(out).Ok? <==> sessionId.Some? && itemInSession.Some? && ParseFloat(length).Some?)
            && (SessionItemTuple(out).Ok? ==>
                  SessionItemTuple(out).value ==
                  SessionItemInsert(sessionId.value, itemInSession.value, out[Transform.ColumnIndex("artist")],
                                    out[Transform.ColumnIndex("song")], Float(length)))
    ensures var sessionId, userId, itemInSession := ParseInt(out[Transform.ColumnIndex("sessionId")]),
                                                    ParseInt(out[Transform.ColumnIndex("userId")]),
                                                    ParseInt(out[Transform.ColumnIndex("itemInSession")]);
            && (UserSessionTuple(out).Ok? <==> sessionId.Some? && userId.Some? && itemInSession.Some?)
            && (UserSessionTuple(out).Ok? ==>
                  UserSessionTuple(out).value ==
                  UserSessionInsert(sessionId.value, userId.value, itemInSession.value,
                                    out[Transform.ColumnIndex("artist")], out[Transform.ColumnIndex("song")],
                                    out[Transform.ColumnIndex("firstName")], out[Transform.ColumnIndex("lastName")]))
    ensures var userId := ParseInt(out[Transform.ColumnIndex("userId")]);
            && (UserSongTuple(out).Ok? <==> userId.Some?)
            && (UserSongTuple(out).Ok? ==>
                  UserSongTuple(out).value ==
                  UserSongInsert(out[Transform.ColumnIndex("song")], userId.value,
                                 out[Transform.ColumnIndex("firstName")], out[Transform.ColumnIndex("lastName")]))
  {
    Transform.ColumnPosition(0);
    Transform.ColumnPosition(1);
    Transform.ColumnPosition(3);
    Transform.ColumnPosition(4);
    Transform.ColumnPosition(5);
    Transform.ColumnPosition(8);
    Transform.ColumnPosition(9);
    Transform.ColumnPosition(10);
  }

  /** A transformed row converts for each table exactly when the raw numeric
      fields (sessionId at 12, itemInSession at 4, userId at 16, length at 6)
      do, and the insert carries the raw row's values. */
  lemma TransformedRowLoads(raw: Row)
    requires |raw| > 16
    ensures Tuple(SessionItem, Transform.TransformRow(raw)).Ok? <==>
              ParseInt(raw[12]).Some? && ParseInt(raw[4]).Some? && ParseFloat(raw[6]).Some?
    ensures Tuple(SessionItem, Transform.TransformRow(raw)).Ok? ==>
              Tuple(SessionItem, Transform.TransformRow(raw)).value ==
              SessionItemInsert(ParseInt(raw[12]).value, ParseInt(raw[4]).value, raw[0], raw[13], Float(raw[6]))
    ensures Tuple(UserSession, Transform.TransformRow(raw)).Ok? <==>
              ParseInt(raw[12]).Some? && ParseInt(raw[16]).Some? && ParseInt(raw[4]).Some?
    ensures Tuple(UserSession, Transform.TransformRow(raw)).Ok? ==>
              Tuple(UserSession, Transform.TransformRow(raw)).value ==
              UserSessionInsert(ParseInt(raw[12]).value, ParseInt(raw[16]).value, ParseInt(raw[4]).value,
                                raw[0], raw[13], raw[2], raw[5])
    ensures Tuple(UserSong, Transform.TransformRow(raw)).Ok? <==> ParseInt(raw[16]).Some?
    ensures Tuple(UserSong, Transform.TransformRow(raw)).Ok? ==>
              Tuple(UserSong, Transform.TransformRow(raw)).value ==
              UserSongInsert(raw[13], ParseInt(raw[16]).value, raw[2], raw[5])
  {
    var out := Transform.TransformRow(raw);
    assert out[0] == raw[0] && out[1] == raw[2] && out[3] == raw[4] && out[4] == raw[5];
    assert out[5] == raw[6] && out[8] == raw[12] && out[9] == raw[13] && out[10] == raw[16];
  }

  /** Every row the transformer kept converts, once projected, for table t. */
  predicate KeptRowsConvert(t: Table, skipEmptyArtist: bool, raw: seq<Row>)
    requires Transform.NoIndexError(skipEmptyArtist, raw)
  {
    forall r :: r in raw && !Transform.IsDropped(skipEmptyArtist, r) ==> Tuple(t, Transform.TransformRow(r)).Ok?
  }

  /** Loading the artifact of a complete transform: the loader skips the
      header row the transformer wrote, and a successful table load inserts
      one tuple per row the transformer kept, in the same order. */
  lemma ArtifactLoad(t: Table, fs: FileSystem, p: Path, skipEmptyArtist: bool, raw: seq<Row>,
                     before: seq<Statement>, after: seq<Statement>, r: Result<nat>)
    requires Transform.NoIndexError(skipEmptyArtist, raw)
    requires p in fs.files && fs.files[p] == Rows([Transform.OUTPUT_COLUMNS] + Transform.Emitted(skipEmptyArtist, raw))
    requires TableLoaded(t, DataRows(fs, p), before, after, r)
    ensures DataRows(fs, p) == Ok(Transform.Emitted(skipEmptyArtist, raw))
    ensures KeptRowsConvert(t, skipEmptyArtist, raw) ==> AllConvert(t, Transform.Emitted(skipEmptyArtist, raw))
    ensures r.Ok? ==> r.value == |Transform.Kept(skipEmptyArtist, raw)| &&
                      after == before + Inserts(t, Transform.Emitted(skipEmptyArtist, raw))
    ensures r.Ok? ==> r.value + Transform.SkippedCount(skipEmptyArtist, raw) == |raw|
  {
    Transform.KeptPlusSkipped(skipEmptyArtist, raw);
    var emitted := Transform.Emitted(skipEmptyArtist, raw);
    assert ([Transform.OUTPUT_COLUMNS] + emitted)[1..] == emitted;
    Transform.KeptRowsFit(skipEmptyArtist, raw);
    var kept := Transform.Kept(skipEmptyArtist, raw);
    assert emitted == Transform.TransformAll(kept);
    if KeptRowsConvert(t, skipEmptyArtist, raw) {
      forall i | 0 <= i < |emitted|
        ensures Tuple(t, emitted[i]).Ok?
      {
        assert kept[i] in kept;
      }
    }
  }
}
