/** The metadata record store: `InFileFileMetaDataRepository` keeps one text
    line `id,originalName,creatingDate` per record in a single append-only
    file and finds a record by scanning the lines in file order. */
module MetaData {
  import opened Errors
  import opened Bytes
  import opened Decimal
  import opened FileSystem

  const DefaultFilesMetaDataFileName: Str := Ascii("/store/file-data")

  datatype FileMetaData = FileMetaData(id: Str, originalName: Str, creatingDate: Int64)

  // ---------------------------------------------------------------------------
  // The line format
  // ---------------------------------------------------------------------------

  /** `fmt.Sprintf("%s,%s,%d", id, originalName, creatingDate)`. */
  function Body(m: FileMetaData): Str
  {
    m.id + [Comma] + m.originalName + [Comma] + Format(m.creatingDate)
  }

  /** The bytes one `Save` appends: the record's text and a newline. */
  function Line(m: FileMetaData): (s: Str)
    ensures |s| > 0 && s[|s| - 1] == Newline
  {
    Body(m) + [Newline]
  }

  /** No escaping is done, so only text free of both separators survives a save. */
  predicate NoSeparators(s: Str) { Comma !in s && Newline !in s }

  predicate Writable(m: FileMetaData) { NoSeparators(m.id) && NoSeparators(m.originalName) }

  /** Empty, or ending in a newline: what a file holds when every write to it
      was a whole `Line`. */
  predicate WellTerminated(content: Str)
  {
    |content| == 0 || content[|content| - 1] == Newline
  }

  // ---------------------------------------------------------------------------
  // Parsing and lookup
  // ---------------------------------------------------------------------------

  /** `strings.Split(line, ",")`. */
  function Fields(line: Str): seq<Str>
  {
    Split(line, Comma)
  }

  /** A line is taken as the record for `id` when it has at least three fields
      and its first field is `id`; shorter lines are skipped. */
  predicate IsRecordFor(line: Str, id: Str)
  {
    var f := Fields(line);
    |f| >= 3 && f[0] == id
  }

  /** The date field through `strconv.Atoi`, with 0 whenever Atoi fails. */
  function DateOf(field: Str): (d: Int64)
    ensures !IsDecimalText(field) ==> d == 0
    ensures IsDecimalText(field) && MinInt64 <= SignedValue(field) <= MaxInt64 ==> d == SignedValue(field)
    ensures IsDecimalText(field) && !(MinInt64 <= SignedValue(field) <= MaxInt64) ==> d == 0
  {
    match Atoi(field)
    case Some(n) => n
    case None => 0
  }

  /** The record a matching line yields: the requested id, field 1 as the
      name, field 2 as the date; fields after the third are ignored. */
  function RecordOf(line: Str, id: Str): FileMetaData
    requires IsRecordFor(line, id)
  {
    var f := Fields(line);
    FileMetaData(id, f[1], DateOf(f[2]))
  }

  /** The first line, in order, that is a record for `id`. */
  function Lookup(lines: seq<Str>, id: Str): (r: Option<FileMetaData>)
    ensures r.None? <==> forall i :: 0 <= i < |lines| ==> !IsRecordFor(lines[i], id)
    ensures r.Some? ==> r.value.id == id
  {
    if |lines| == 0 then None
    else if IsRecordFor(lines[0], id) then Some(RecordOf(lines[0], id))
    else
      var r := Lookup(lines[1..], id);
      assert forall i :: 1 <= i < |lines| ==> lines[i] == lines[1..][i - 1];
      r
  }

  /** The lookup `GetById` performs on the file's content. */
  function Find(content: Str, id: Str): (r: Result<FileMetaData>)
    ensures r.Ok? || r == Err(FileNotFound)
    ensures r.Ok? ==> r.value.id == id
  {
    match Lookup(Split(content, Newline), id)
    case Some(m) => Ok(m)
    case None => Err(FileNotFound)
  }

  /** What `GetById` returns for the files as they are. */
  function Fetch(files: map<Path, Str>, path: Path, id: Str, o: Outcome): (r: Result<FileMetaData>)
    ensures path == [] ==> r == Err(StorageFilePathEmpty)
    ensures path != [] && path !in files ==> r == Err(Io(NotExist))
    ensures path != [] && path in files && o.FailsWith? ==> r == Err(Io(o.err))
    ensures path != [] && path in files && o.Succeeds? ==> r == Find(files[path], id)
    ensures r.Ok? ==> r.value.id == id && path in files && r == Find(files[path], id)
  {
    if path == [] then Err(StorageFilePathEmpty)
    else match Read(files, path, o)
      case Err(e) => Err(e)
      case Ok(content) => Find(content, id)
  }

  // ---------------------------------------------------------------------------
  // What an append does to the files
  // ---------------------------------------------------------------------------

  /** The environment's answers to the calls of one `Save`: the append-mode
      open, the `os.Create` retried after `ErrNotExist`, and the write. */
  datatype AppendOutcomes = AppendOutcomes(open: Outcome, create: Outcome, write: Outcome)

  /** The file is open for writing: directly, or through the retry. */
  predicate Opens(o: AppendOutcomes)
  {
    o.open.Succeeds? || (o.open == FailsWith(NotExist) && o.create.Succeeds?)
  }

  /** The error of the open that failed last. */
  function OpenError(o: AppendOutcomes): IoError
    requires !Opens(o)
  {
    if o.open == FailsWith(NotExist) then o.create.err else o.open.err
  }

  predicate AppendSucceeds(path: Path, o: AppendOutcomes)
  {
    path != [] && Opens(o) && o.write.Succeeds?
  }

  function AppendError(path: Path, o: AppendOutcomes): Error
    requires !AppendSucceeds(path, o)
  {
    if path == [] then StorageFilePathEmpty
    else if !Opens(o) then Io(OpenError(o))
    else Io(o.write.err)
  }

  /** The content the line is written after: the file as it was (nothing if
      absent) when the append-mode open succeeded, nothing when `os.Create`
      made the file, since it truncates. */
  function AppendBase(files: map<Path, Str>, path: Path, o: AppendOutcomes): Str
  {
    if o.open.Succeeds? then ContentOf(files, path) else []
  }

  function AfterAppend(files: map<Path, Str>, path: Path, m: FileMetaData, o: AppendOutcomes): map<Path, Str>
  {
    files[path := AppendBase(files, path, o) + Line(m)]
  }

  /** A failed `Save` leaves the file created (or truncated) when it got as far as opening it. */
  function AfterFailedAppend(files: map<Path, Str>, path: Path, o: AppendOutcomes): map<Path, Str>
  {
    if path != [] && Opens(o) then files[path := AppendBase(files, path, o)] else files
  }

  // ---------------------------------------------------------------------------
  // The repository
  // ---------------------------------------------------------------------------

  datatype InFileFileMetaDataRepository = InFileFileMetaDataRepository(storageFilePath: Path)
  {
    /** Appends the record's line to the metadata file, creating it if absent. */
    method Save(fs: FileSystem, m: FileMetaData, o: AppendOutcomes) returns (r: Result<Str>)
      modifies fs
      ensures storageFilePath == [] ==> r == Err(StorageFilePathEmpty) && fs.files == old(fs.files)
      ensures r.Ok? <==> AppendSucceeds(storageFilePath, o)
      ensures r.Ok? ==> r.value == m.id && fs.files == AfterAppend(old(fs.files), storageFilePath, m, o)
      ensures r.Err? ==>
        r.error == AppendError(storageFilePath, o) &&
        fs.files == AfterFailedAppend(old(fs.files), storageFilePath, o)
      ensures fs.dirs == old(fs.dirs)
    {
      if storageFilePath == [] {
        return Err(StorageFilePathEmpty);
      }
      var err := fs.OpenAppend(storageFilePath, o.open);
      if err.Some? {
        if err.value == NotExist {
          err := fs.Create(storageFilePath, o.create);
        }
        if err.Some? {
          return Err(Io(err.value));
        }
      }
      err := fs.Write(storageFilePath, Line(m), o.write);
      if err.Some? {
        return Err(Io(err.value));
      }
      return Ok(m.id);
    }

    /** Reads the metadata file and returns the first record whose id matches. */
    method GetById(fs: FileSystem, id: Str, o: Outcome) returns (r: Result<FileMetaData>)
      ensures r == Fetch(fs.files, storageFilePath, id, o)
    {
      if storageFilePath == [] {
        return Err(StorageFilePathEmpty);
      }
      var read := fs.ReadFile(storageFilePath, o);
      if read.Err? {
        return Err(read.error);
      }
      var lines := Split(read.value, Newline);
      var i := 0;
      while i < |lines|
        invariant 0 <= i <= |lines|
        invariant Lookup(lines, id) == Lookup(lines[i..], id)
      {
        var record := Split(lines[i], Comma);
        assert lines[i..][0] == lines[i] && lines[i..][1..] == lines[i + 1..];
        if |record| < 3 {
          i := i + 1;
          continue;
        }
        if record[0] == id {
          var creatingDate := Atoi(record[2]);
          var date: Int64 := if creatingDate.Some? then creatingDate.value else 0;
          return Ok(FileMetaData(id, record[1], date));
        }
        i := i + 1;
      }
      return Err(FileNotFound);
    }
  }

  /** `createInFileFileMetaDataRepository`: an empty path means the default file. */
  function CreateInFileFileMetaDataRepository(storageFilePath: Path): (r: InFileFileMetaDataRepository)
    ensures r.storageFilePath != []
    ensures storageFilePath != [] ==> r.storageFilePath == storageFilePath
    ensures storageFilePath == [] ==> r.storageFilePath == DefaultFilesMetaDataFileName
  {
    if storageFilePath == [] then InFileFileMetaDataRepository(DefaultFilesMetaDataFileName)
    else InFileFileMetaDataRepository(storageFilePath)
  }

  // ---------------------------------------------------------------------------
  // Properties of the lookup
  // ---------------------------------------------------------------------------

  /** Looking through two runs of lines: the first run wins. */
  lemma {:induction false} LookupConcat(a: seq<Str>, b: seq<Str>, id: Str)
    ensures Lookup(a + b, id) == if Lookup(a, id).Some? then Lookup(a, id) else Lookup(b, id)
    decreases |a|
  {
    if |a| == 0 {
      assert a + b == b;
    } else {
      assert (a + b)[0] == a[0];
      assert (a + b)[1..] == a[1..] + b;
      LookupConcat(a[1..], b, id);
    }
  }

  /** The record found is the one on the first matching line. */
  lemma {:induction false} LookupFirstMatch(lines: seq<Str>, k: nat, id: Str)
    requires k < |lines| && IsRecordFor(lines[k], id)
    requires forall j :: 0 <= j < k ==> !IsRecordFor(lines[j], id)
    ensures Lookup(lines, id) == Some(RecordOf(lines[k], id))
    decreases k
  {
    if k > 0 {
      assert !IsRecordFor(lines[0], id);
      assert lines[1..][k - 1] == lines[k];
      LookupFirstMatch(lines[1..], k - 1, id);
    }
  }

  /** A line with fewer than three fields makes no difference to any lookup. */
  lemma {:induction false} LookupSkipsMalformed(lines: seq<Str>, k: nat, id: Str)
    requires k < |lines| && |Fields(lines[k])| < 3
    ensures Lookup(lines[..k] + lines[k + 1..], id) == Lookup(lines, id)
  {
    var rest := lines[k + 1..];
    assert lines == lines[..k] + ([lines[k]] + rest);
    assert ([lines[k]] + rest)[1..] == rest;
    LookupConcat(lines[..k], [lines[k]] + rest, id);
    LookupConcat(lines[..k], rest, id);
  }

  // ---------------------------------------------------------------------------
  // Save followed by lookup
  // ---------------------------------------------------------------------------

  /** A writable record's line splits into exactly its three fields. */
  lemma BodyFields(m: FileMetaData)
    requires Writable(m)
    ensures Fields(Body(m)) == [m.id, m.originalName, Format(m.creatingDate)]
    ensures Newline !in Body(m)
  {
    var date := Format(m.creatingDate);
    assert Body(m) == m.id + [Comma] + (m.originalName + [Comma] + date);
    SplitConcat(m.id, m.originalName + [Comma] + date, Comma);
    SplitConcat(m.originalName, date, Comma);
    SplitWithoutSeparator(m.id, Comma);
    SplitWithoutSeparator(m.originalName, Comma);
    SplitWithoutSeparator(date, Comma);
  }

  /** The one line a save adds is a record for its own id and no other, and
      reads back as the record saved. */
  lemma LineLookup(m: FileMetaData, x: Str)
    requires Writable(m)
    ensures Split(Line(m), Newline) == [Body(m), []]
    ensures Lookup(Split(Line(m), Newline), x) == if x == m.id then Some(m) else None
  {
    BodyFields(m);
    assert Line(m) == Body(m) + [Newline] + [];
    SplitConcat(Body(m), [], Newline);
    SplitWithoutSeparator(Body(m), Newline);
    AtoiFormat(m.creatingDate);
    assert Fields([]) == [[]];
    var lines := [Body(m), []];
    assert lines[1..] == [[]];
  }

  /** Appending a writable record to a well-terminated file: every id found
      before is found as before, the saved id is found if it was not already
      present, and every other id stays unknown. */
  lemma FindAfterAppend(content: Str, m: FileMetaData, x: Str)
    requires WellTerminated(content) && Writable(m)
    ensures Find(content + Line(m), x) ==
      if Find(content, x).Ok? then Find(content, x)
      else if x == m.id then Ok(m)
      else Err(FileNotFound)
  {
    LineLookup(m, x);
    assert Lookup([[]], x) == None by {
      assert Fields([]) == [[]];
    }
    if |content| == 0 {
      assert content + Line(m) == Line(m);
    } else {
      var lines := Split(content[..|content| - 1], Newline);
      SplitAfterTerminator(content, []);
      SplitAfterTerminator(content, Line(m));
      assert content + [] == content;
      LookupConcat(lines, [[]], x);
      LookupConcat(lines, Split(Line(m), Newline), x);
    }
  }

  /** Text after a final newline starts a new line of its own. */
  lemma SplitAfterTerminator(content: Str, tail: Str)
    requires |content| > 0 && WellTerminated(content)
    ensures Split(content + tail, Newline) == Split(content[..|content| - 1], Newline) + Split(tail, Newline)
  {
    var init := content[..|content| - 1];
    assert content + tail == init + [Newline] + tail;
    SplitConcat(init, tail, Newline);
  }

  /** Round trip: a record saved under a fresh id reads back unchanged. */
  lemma SaveThenFind(content: Str, m: FileMetaData)
    requires WellTerminated(content) && Writable(m)
    requires Find(content, m.id) == Err(FileNotFound)
    ensures Find(content + Line(m), m.id) == Ok(m)
    ensures WellTerminated(content + Line(m))
  {
    FindAfterAppend(content, m, m.id);
  }

  /** The file written by a sequence of saves, oldest first. */
  function Serialize(records: seq<FileMetaData>): (s: Str)
    ensures WellTerminated(s)
  {
    if |records| == 0 then []
    else Serialize(records[..|records| - 1]) + Line(records[|records| - 1])
  }

  /** The earliest saved record with the given id. */
  function FirstWithId(records: seq<FileMetaData>, id: Str): Option<FileMetaData>
  {
    if |records| == 0 then None
    else if records[0].id == id then Some(records[0])
    else FirstWithId(records[1..], id)
  }

  lemma {:induction false} FirstWithIdAppend(records: seq<FileMetaData>, m: FileMetaData, id: Str)
    ensures FirstWithId(records + [m], id) ==
      if FirstWithId(records, id).Some? then FirstWithId(records, id)
      else if m.id == id then Some(m)
      else None
    decreases |records|
  {
    if |records| > 0 {
      assert (records + [m])[1..] == records[1..] + [m];
      FirstWithIdAppend(records[1..], m, id);
    }
  }

  /** A file built only by saves of writable records behaves as a list of
      records searched from the oldest: the earliest record with the id wins. */
  lemma {:induction false} FindSerialized(records: seq<FileMetaData>, id: Str)
    requires forall i :: 0 <= i < |records| ==> Writable(records[i])
    ensures Find(Serialize(records), id) ==
      match FirstWithId(records, id)
      case Some(m) => Ok(m)
      case None => Err(FileNotFound)
    decreases |records|
  {
    if |records| == 0 {
      assert Split([], Newline) == [[]];
      assert Fields([]) == [[]];
    } else {
      var init, last := records[..|records| - 1], records[|records| - 1];
      assert records == init + [last];
      FindSerialized(init, id);
      FindAfterAppend(Serialize(init), last, id);
      FirstWithIdAppend(init, last, id);
    }
  }

  // ---------------------------------------------------------------------------
  // Why the round trip needs its preconditions
  // ---------------------------------------------------------------------------

  /** A comma in the name is taken as a field separator: the record `a`,
      `b,c`, 1 reads back with name `b` and date 0 (field 2 is `c`). */
  lemma CommaInNameBreaksRoundTrip()
    ensures var m := FileMetaData([0x61], [0x62, Comma, 0x63], 1);
      Find(Line(m), m.id) == Ok(FileMetaData([0x61], [0x62], 0)) && Find(Line(m), m.id) != Ok(m)
  {
    var m := FileMetaData([0x61], [0x62, Comma, 0x63], 1);
    var date := Format(1);
    assert date == [0x31];
    var body := Body(m);
    assert body == [0x61] + [Comma] + ([0x62] + [Comma] + ([0x63] + [Comma] + date));
    SplitConcat([0x61], [0x62] + [Comma] + ([0x63] + [Comma] + date), Comma);
    SplitConcat([0x62], [0x63] + [Comma] + date, Comma);
    SplitConcat([0x63], date, Comma);
    SplitWithoutSeparator([0x61], Comma);
    SplitWithoutSeparator([0x62], Comma);
    SplitWithoutSeparator([0x63], Comma);
    SplitWithoutSeparator(date, Comma);
    assert Fields(body) == [[0x61], [0x62], [0x63], date];
    assert Atoi([0x63]) == None;
    assert RecordOf(body, m.id) == FileMetaData([0x61], [0x62], 0);
    assert Newline !in body;
    assert Line(m) == body + [Newline] + [];
    SplitConcat(body, [], Newline);
    SplitWithoutSeparator(body, Newline);
    assert Split(Line(m), Newline) == [body, []];
  }

  /** A last line without its newline (a write cut short) absorbs the next
      saved line: after `x` the record `a`, `n`, 1 is not found. */
  lemma PartialLineSwallowsNextRecord()
    ensures var m := FileMetaData([0x61], [0x6E], 1);
      Writable(m) && Find([0x78], m.id) == Err(FileNotFound)
      && Find([0x78] + Line(m), m.id) == Err(FileNotFound)
  {
    var m := FileMetaData([0x61], [0x6E], 1);
    var date := Format(1);
    assert date == [0x31];
    var merged := [0x78] + Body(m);
    assert merged == [0x78, 0x61] + [Comma] + ([0x6E] + [Comma] + date);
    SplitConcat([0x78, 0x61], [0x6E] + [Comma] + date, Comma);
    assert Fields(merged)[0] == [0x78, 0x61];
    assert [0x78] + Line(m) == merged + [Newline] + [];
    SplitConcat(merged, [], Newline);
    BodyFields(m);
    SplitWithoutSeparator(merged, Newline);
    assert Fields([]) == [[]];
    SplitWithoutSeparator([0x78], Comma);
    var lines := [merged, []];
    assert lines[1..] == [[]];
  }

  /** A partial last line can also merge with the next line into a record that
      is found but wrong: `a,n` followed by the line of `{a, n, 1}` reads back
      as the record `{a, na, 0}`. */
  lemma PartialLineCorruptsNextRecord()
    ensures var m := FileMetaData([0x61], [0x6E], 1);
      var partial := [0x61, Comma, 0x6E];
      Writable(m) && Find(partial, m.id) == Err(FileNotFound)
      && Find(partial + Line(m), m.id) == Ok(FileMetaData([0x61], [0x6E, 0x61], 0))
  {
    var m := FileMetaData([0x61], [0x6E], 1);
    var partial := [0x61, Comma, 0x6E];
    BodyFields(m);
    PartialLineFields();
    assert Split(partial, Newline) == [partial] by {
      SplitWithoutSeparator(partial, Newline);
    }
    var merged := partial + Body(m);
    MergedLineFields();
    assert Atoi([0x6E]) == None;
    assert Split(partial + Line(m), Newline) == [merged, []] by {
      assert partial + Line(m) == merged + [Newline] + [];
      SplitConcat(merged, [], Newline);
      SplitWithoutSeparator(merged, Newline);
    }
  }

  /** The fields of the partial line `a,n`. */
  lemma PartialLineFields()
    ensures Fields([0x61, Comma, 0x6E]) == [[0x61], [0x6E]]
  {
    assert [0x61, Comma, 0x6E] == [0x61] + [Comma] + [0x6E];
    SplitConcat([0x61], [0x6E], Comma);
    SplitWithoutSeparator([0x61], Comma);
    SplitWithoutSeparator([0x6E], Comma);
  }

  /** The fields of `a,n` run together with the body of `{a, n, 1}`. */
  lemma MergedLineFields()
    ensures Fields([0x61, Comma, 0x6E] + Body(FileMetaData([0x61], [0x6E], 1))) ==
      [[0x61], [0x6E, 0x61], [0x6E], [0x31]]
  {
    var date := Format(1);
    assert date == [0x31];
    var merged := [0x61, Comma, 0x6E] + Body(FileMetaData([0x61], [0x6E], 1));
    assert merged == [0x61] + [Comma] + ([0x6E, 0x61] + [Comma] + ([0x6E] + [Comma] + date));
    SplitConcat([0x61], [0x6E, 0x61] + [Comma] + ([0x6E] + [Comma] + date), Comma);
    SplitConcat([0x6E, 0x61], [0x6E] + [Comma] + date, Comma);
    SplitConcat([0x6E], date, Comma);
    SplitWithoutSeparator([0x61], Comma);
    SplitWithoutSeparator([0x6E, 0x61], Comma);
    SplitWithoutSeparator([0x6E], Comma);
    SplitWithoutSeparator(date, Comma);
  }
}
