/** The folder file keeper: `InFolderFileKeeper` writes each file's bytes to
    `<folder>/<id>` and records `{id, name, time}` in the metadata store;
    retrieval looks the record up and reads the bytes back. */
module Keeper {
  import opened Errors
  import opened Bytes
  import opened Decimal
  import opened FileSystem
  import opened MetaData

  const DefaultFilesFolderName: Str := Ascii("/store/files")

  /** An uploaded file: its bytes and the name the uploader gave. */
  datatype OriginalFile = OriginalFile(content: Str, name: Str)

  /** `fmt.Sprintf("%s/%s", folderName, id)`: where the bytes of `id` live. */
  function BlobPath(folderName: Path, id: Str): Path
  {
    folderName + [Slash] + id
  }

  predicate IsLowerHex(b: byte) { IsDigit(b) || 0x61 <= b <= 0x66 }

  /** The form `uuid.New().String()` returns: a version 4 UUID in the canonical
      text of section 3 of RFC 4122, 8-4-4-4-12 lower-case hex digits. */
  predicate IsCanonicalUuid(s: Str)
  {
    |s| == 36 &&
    (forall i :: 0 <= i < 36 ==>
      if i == 8 || i == 13 || i == 18 || i == 23 then s[i] == Minus else IsLowerHex(s[i])) &&
    s[14] == 0x34 &&
    (s[19] == 0x38 || s[19] == 0x39 || s[19] == 0x61 || s[19] == 0x62)
  }

  /** A generated id never holds a separator of the metadata line format. */
  lemma CanonicalUuidHasNoSeparators(s: Str)
    requires IsCanonicalUuid(s)
    ensures NoSeparators(s)
  {
  }

  /** The environment's answers to the calls of one `Save`. */
  datatype SaveOutcomes = SaveOutcomes(mkdir: Outcome, create: Outcome, write: Outcome, metaData: AppendOutcomes)

  /** The environment's answers to the two reads of one `GetById`. */
  datatype GetOutcomes = GetOutcomes(metaData: Outcome, blob: Outcome)

  /** The directory, the blob file and the blob's bytes were all written. */
  predicate BlobWritten(o: SaveOutcomes)
  {
    o.mkdir.Succeeds? && o.create.Succeeds? && o.write.Succeeds?
  }

  /** The error of the first blob step that failed. */
  function BlobError(o: SaveOutcomes): IoError
    requires !BlobWritten(o)
  {
    if o.mkdir.FailsWith? then o.mkdir.err
    else if o.create.FailsWith? then o.create.err
    else o.write.err
  }

  datatype InFolderFileKeeper = InFolderFileKeeper(folderName: Path, repository: InFileFileMetaDataRepository)
  {
    /** Stores `file` under the generated `id`, stamped with the time `now`:
        first the bytes in the folder, then the metadata record. */
    method Save(fs: FileSystem, file: OriginalFile, id: Str, now: Int64, o: SaveOutcomes) returns (r: Result<Str>)
      modifies fs
      ensures fs.dirs == if folderName != [] && o.mkdir.Succeeds? then old(fs.dirs) + {folderName} else old(fs.dirs)
      ensures r.Ok? <==> folderName != [] && BlobWritten(o) && AppendSucceeds(repository.storageFilePath, o.metaData)
      ensures r.Ok? ==> r.value == id && fs.files == Stored(old(fs.files), this, file, id, now, o.metaData)
      ensures folderName == [] ==> r == Err(FolderNameEmpty) && fs.files == old(fs.files)
      ensures folderName != [] && !BlobWritten(o) ==>
        r == Err(Io(BlobError(o))) &&
        fs.files == if o.mkdir.Succeeds? && o.create.Succeeds? then old(fs.files)[BlobPath(folderName, id) := []] else old(fs.files)
      ensures folderName != [] && BlobWritten(o) && r.Err? ==>
        r.error == AppendError(repository.storageFilePath, o.metaData) &&
        fs.files == AfterFailedAppend(old(fs.files)[BlobPath(folderName, id) := file.content], repository.storageFilePath, o.metaData)
    {
      if folderName == [] {
        return Err(FolderNameEmpty);
      }
      var err := fs.MkdirAll(folderName, o.mkdir);
      if err.Some? {
        return Err(Io(err.value));
      }
      var blob := BlobPath(folderName, id);
      err := fs.Create(blob, o.create);
      if err.Some? {
        return Err(Io(err.value));
      }
      err := fs.Write(blob, file.content, o.write);
      if err.Some? {
        return Err(Io(err.value));
      }
      assert [] + file.content == file.content;
      assert fs.files == old(fs.files)[blob := file.content];
      var saved := repository.Save(fs, FileMetaData(id, file.name, now), o.metaData);
      if saved.Err? {
        return Err(saved.error);
      }
      return Ok(saved.value);
    }

    /** Looks the record up by `id` and reads the bytes stored for it. */
    method GetById(fs: FileSystem, id: Str, o: GetOutcomes) returns (r: Result<OriginalFile>)
      ensures r == Retrieve(fs.files, this, id, o)
    {
      if folderName == [] {
        return Err(FolderNameEmpty);
      }
      var found := repository.GetById(fs, id, o.metaData);
      if found.Err? {
        return Err(found.error);
      }
      var content := fs.ReadFile(BlobPath(folderName, found.value.id), o.blob);
      if content.Err? {
        return Err(content.error);
      }
      return Ok(OriginalFile(content.value, found.value.originalName));
    }
  }

  /** The files after a `Save` of `file` under `id` at time `now` that succeeded. */
  function Stored(files: map<Path, Str>, keeper: InFolderFileKeeper, file: OriginalFile, id: Str, now: Int64,
                  o: AppendOutcomes): map<Path, Str>
  {
    AfterAppend(files[BlobPath(keeper.folderName, id) := file.content],
                keeper.repository.storageFilePath, FileMetaData(id, file.name, now), o)
  }

  /** What `GetById` returns for the files as they are. */
  function Retrieve(files: map<Path, Str>, keeper: InFolderFileKeeper, id: Str, o: GetOutcomes): (r: Result<OriginalFile>)
    ensures keeper.folderName == [] ==> r == Err(FolderNameEmpty)
    ensures keeper.folderName != [] && Fetch(files, keeper.repository.storageFilePath, id, o.metaData).Err? ==>
      r == Err(Fetch(files, keeper.repository.storageFilePath, id, o.metaData).error)
    ensures (keeper.folderName != [] && BlobPath(keeper.folderName, id) !in files &&
             Fetch(files, keeper.repository.storageFilePath, id, o.metaData).Ok?) ==>
      r == Err(Io(NotExist))
    ensures (keeper.folderName != [] && BlobPath(keeper.folderName, id) in files &&
             Fetch(files, keeper.repository.storageFilePath, id, o.metaData).Ok? && o.blob.FailsWith?) ==>
      r == Err(Io(o.blob.err))
    ensures (keeper.folderName != [] && BlobPath(keeper.folderName, id) in files &&
             Fetch(files, keeper.repository.storageFilePath, id, o.metaData).Ok? && o.blob.Succeeds?) ==>
      r == Ok(OriginalFile(files[BlobPath(keeper.folderName, id)],
                           Fetch(files, keeper.repository.storageFilePath, id, o.metaData).value.originalName))
    ensures r.Ok? ==>
      BlobPath(keeper.folderName, id) in files &&
      r.value == OriginalFile(files[BlobPath(keeper.folderName, id)],
                              Fetch(files, keeper.repository.storageFilePath, id, o.metaData).value.originalName)
  {
    if keeper.folderName == [] then Err(FolderNameEmpty)
    else match Fetch(files, keeper.repository.storageFilePath, id, o.metaData)
      case Err(e) => Err(e)
      case Ok(m) =>
        match Read(files, BlobPath(keeper.folderName, m.id), o.blob)
        case Err(e) => Err(e)
        case Ok(content) => Ok(OriginalFile(content, m.originalName))
  }

  /** The result of `createInFolderFileKeeper`; `Panicked` is the panic on a nil repository. */
  datatype Construction = Constructed(keeper: InFolderFileKeeper) | Panicked

  /** `createInFolderFileKeeper`: an empty folder name means the default folder. */
  function CreateInFolderFileKeeper(folderName: Path, repository: Option<InFileFileMetaDataRepository>): (c: Construction)
    ensures c.Panicked? <==> repository.None?
    ensures c.Constructed? ==>
      c.keeper.folderName != [] &&
      (folderName != [] ==> c.keeper.folderName == folderName) &&
      c.keeper.repository == repository.value
    ensures c.Constructed? && folderName == [] ==> c.keeper.folderName == DefaultFilesFolderName
  {
    var folder := if folderName == [] then DefaultFilesFolderName else folderName;
    if repository.None? then Panicked else Constructed(InFolderFileKeeper(folder, repository.value))
  }

  /** Round trip: after a successful `Save` under a fresh generated id,
      `GetById` of that id returns the bytes and the name that were saved. */
  lemma SaveThenGetById(files: map<Path, Str>, keeper: InFolderFileKeeper, file: OriginalFile, id: Str, now: Int64,
                        o: AppendOutcomes)
    requires keeper.folderName != [] && keeper.repository.storageFilePath != []
    requires IsCanonicalUuid(id) && NoSeparators(file.name)
    requires keeper.repository.storageFilePath != BlobPath(keeper.folderName, id)
    requires WellTerminated(ContentOf(files, keeper.repository.storageFilePath))
    requires Find(ContentOf(files, keeper.repository.storageFilePath), id) == Err(FileNotFound)
    ensures Retrieve(Stored(files, keeper, file, id, now, o), keeper, id, GetOutcomes(Succeeds, Succeeds)) == Ok(file)
  {
    var meta, blob := keeper.repository.storageFilePath, BlobPath(keeper.folderName, id);
    var withBlob := files[blob := file.content];
    var record := FileMetaData(id, file.name, now);
    var base := AppendBase(withBlob, meta, o);
    assert ContentOf(withBlob, meta) == ContentOf(files, meta);
    if !o.open.Succeeds? {
      assert Split([], Newline) == [[]];
      assert Fields([]) == [[]];
    }
    CanonicalUuidHasNoSeparators(id);
    SaveThenFind(base, record);
    var after := Stored(files, keeper, file, id, now, o);
    assert after[meta] == base + Line(record);
    assert Fetch(after, meta, id, Succeeds) == Ok(record);
  }

  /** When the metadata append fails after the bytes were written, the bytes
      stay in the folder but `GetById` cannot reach them. */
  lemma MetaDataFailureOrphansBlob(files: map<Path, Str>, keeper: InFolderFileKeeper, file: OriginalFile, id: Str,
                                   o: AppendOutcomes)
    requires keeper.folderName != [] && !AppendSucceeds(keeper.repository.storageFilePath, o)
    requires keeper.repository.storageFilePath != BlobPath(keeper.folderName, id)
    requires Find(ContentOf(files, keeper.repository.storageFilePath), id) == Err(FileNotFound)
    ensures var after := AfterFailedAppend(files[BlobPath(keeper.folderName, id) := file.content],
                                           keeper.repository.storageFilePath, o);
      BlobPath(keeper.folderName, id) in after && after[BlobPath(keeper.folderName, id)] == file.content &&
      Retrieve(after, keeper, id, GetOutcomes(Succeeds, Succeeds)).Err?
  {
    var meta, blob := keeper.repository.storageFilePath, BlobPath(keeper.folderName, id);
    var withBlob := files[blob := file.content];
    assert ContentOf(withBlob, meta) == ContentOf(files, meta);
    if !o.open.Succeeds? {
      assert Split([], Newline) == [[]];
      assert Fields([]) == [[]];
    }
  }
}
