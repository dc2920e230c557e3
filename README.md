# file-keeper storage core in Dafny

This project models the storage core of file-keeper (`data.go`), a small service that stores
uploaded files and hands them back by identifier. The core has two parts:

- **Metadata store** (`InFileFileMetaDataRepository`, module `MetaData`). Each record
  `{id, originalName, creatingDate}` is one text line `id,originalName,creatingDate` followed by a
  newline. `Save` appends that line to a single file and creates the file when it is absent.
  `GetById` reads the whole file and splits it on newlines, then splits each line on commas. It
  skips lines with fewer than three fields and returns the first line whose first field is the
  id. The date comes from `strconv.Atoi`, and a date that does not parse becomes 0.
- **Folder file keeper** (`InFolderFileKeeper`, module `Keeper`). `Save` creates the folder,
  writes the bytes to `<folder>/<id>` and then saves the metadata record. `GetById` looks the
  record up and reads `<folder>/<record id>`.

Go strings and byte slices are both modelled as byte sequences (`Bytes.Str`). The filesystem is a
class (`FileSystem.FileSystem`) with a map from path to bytes and a set of directories. The two
`Save` methods change that map in place. Each operating-system call takes an `Outcome` parameter
that says whether the call succeeds or which error it returns, because the environment decides
that. Reading a missing path always fails with `ErrNotExist`. The generated id (`uuid.New()`) and
the clock (`time.Now()`) are parameters of `Keeper.InFolderFileKeeper.Save`.

The main results:

- `MetaData.FindAfterAppend` covers appending a record whose id and name hold no `,` or newline
  to a file that is empty or ends in a newline. Every id found before is still found the same
  way. The new id is found as the saved record unless an older line already has it. Every other
  id stays not found.
- `MetaData.FindSerialized` shows that a file written only by such saves acts like a list of
  records, where the oldest record with a given id wins.
- `Keeper.SaveThenGetById` is the end-to-end round trip. Its conditions: the id is a fresh
  canonical UUID, the name holds no `,` or newline, the metadata file is empty or ends in a
  newline, and the metadata path differs from the blob path. After a successful `Save` under
  those conditions, `GetById` returns the same bytes and name.
- `MetaData.CommaInNameBreaksRoundTrip`, `MetaData.PartialLineSwallowsNextRecord` and
  `MetaData.PartialLineCorruptsNextRecord` show that the round trip's conditions are needed. The
  line format does no escaping, so a comma in the name cuts the name short. A last line left
  without its newline joins with the next appended line. What the record after it then reads
  back as depends on the bytes of both lines. It can be lost, or read back with a wrong name or
  date, and by coincidence it can also come back intact. While a partial line with fewer than
  three fields stays last, the lookup skips it. But `Save` does not start a new line after it,
  so the two lines merge, and the merged line can corrupt the record written after it.
- The code accepts any line with three or more fields. Fields after the third are ignored, so a
  line is not rejected for having extra fields.
- `createInFileFileMetaDataRepository` and `createInFolderFileKeeper` replace an empty path with
  the default. So "StorageFilePath is empty" and "FolderName is empty" only happen for values
  built without these constructors.

## Model

| member | source | states |
|---|---|---|
| `Bytes.Split` | data.go:84-87 | `strings.Split` with a one-byte separator gives at least one piece, even for empty input |
| `Bytes.SplitPiecesLackSeparator` | data.go:84-87 | no piece of a split holds the separator |
| `Bytes.JoinSplit` | data.go:84-87 | joining the pieces with the separator gives back the input, so splitting loses no bytes |
| `Bytes.SplitJoin` | data.go:84-87 | splitting undoes joining when no piece holds the separator |
| `Bytes.SplitConcat` | data.go:84 | the pieces of `a + sep + b` are the pieces of `a` followed by those of `b` |
| `Decimal.Format` | data.go:63 | `%d` output is an optional sign followed by digits, and holds neither `,` nor a newline |
| `Decimal.Atoi` | data.go:96 | `strconv.Atoi` accepts exactly the text made of an optional sign and at least one digit whose value (`SignedValue`: the digits, negated after `-`) fits in 64 bits, and then returns that value |
| `Decimal.AtoiPlus` | data.go:96 | a leading `+` does not change what a run of digits parses to |
| `Decimal.AtoiLeadingZero` | data.go:96 | a leading zero, with or without a sign before it, does not change what the text parses to |
| `Decimal.AtoiFormat` | data.go:96-99 | every 64-bit `int` printed with `%d` parses back to itself |
| `Decimal.AtoiFormatOutOfRange` | data.go:96-99 | a number outside the 64-bit range prints but does not parse, so it reads back as date 0 |
| `FileSystem.Read` | data.go:77-81 | `os.ReadFile` succeeds exactly when the file exists and the environment lets the read succeed, and then returns the whole file. A missing file is `ErrNotExist`, and a failed read of an existing file returns the environment's error |
| `FileSystem.FileSystem.MkdirAll` | data.go:143-146 | on success the folder is in the directory set; no file changes |
| `FileSystem.FileSystem.OpenAppend` | data.go:48 | opening for append creates an absent file empty and keeps an existing one unchanged |
| `FileSystem.FileSystem.Create` | data.go:148-152 | `os.Create` leaves the file present and empty |
| `FileSystem.FileSystem.Write` | data.go:156-160 | a successful write puts the bytes after the file's current end; a failed one changes nothing |
| `FileSystem.FileSystem.ReadFile` | data.go:181 | a successful read returns the current bytes of an existing file |
| `MetaData.Line` | data.go:63 | a record's line ends with a newline |
| `MetaData.DateOf` | data.go:96-99 | a date field that is decimal text within the 64-bit range reads as its value. Text that is not decimal, or whose value is out of range, reads as 0 |
| `MetaData.Lookup` | data.go:86-103 | no record is found exactly when no line has at least three comma-separated fields (`Fields`, data.go:87) with field 0 equal to the id; a found record carries the requested id, and `RecordOf` (data.go:95-101) builds it from fields 1 and 2 |
| `MetaData.Find` | data.go:83-105 | the scan of the file's lines either returns a record with the requested id or the "file not found" error |
| `MetaData.Fetch` | data.go:72-105 | an empty path gives "StorageFilePath is empty" and a missing file gives `ErrNotExist`. A failed read of an existing file returns the read error, and a successful read gives exactly the scan's answer on the file's current content |
| `MetaData.InFileFileMetaDataRepository.Save` | data.go:43-70 | an empty path is an error and changes nothing. Otherwise `Save` succeeds exactly when the open (or the `os.Create` retry after `ErrNotExist`) and the write succeed. On success it returns the id, and the file becomes its old content (empty if it was created or truncated) followed by the record's line. No other path and no directory changes |
| `MetaData.InFileFileMetaDataRepository.GetById` | data.go:72-106 | the loop over the lines returns what `Fetch` specifies: the first well-formed line for the id, or the not-found, read or empty-path error |
| `MetaData.CreateInFileFileMetaDataRepository` | data.go:35-41 | an empty path becomes the default `/store/file-data`, a given non-empty path is kept, so the path is never empty |
| `MetaData.LookupConcat` | data.go:86-103 | over two runs of lines, a match in the first run wins over any in the second |
| `MetaData.LookupFirstMatch` | data.go:86-101 | the record returned comes from the first matching line, with field 1 as the name and field 2 as the date |
| `MetaData.LookupSkipsMalformed` | data.go:87-90 | removing a line with fewer than three fields changes no lookup, so a malformed line never hides a well-formed record |
| `MetaData.BodyFields` | data.go:63 | the line of a record with no separators in its id and name splits into exactly id, name and date text |
| `MetaData.LineLookup` | data.go:63-101 | the one line a save adds is the record for its own id only, and reads back as the saved record |
| `MetaData.FindAfterAppend` | data.go:43-105 | appending to a well-terminated file keeps every earlier answer. The saved id is found as the saved record if it was not already present, and other ids stay not found |
| `MetaData.SaveThenFind` | data.go:63-101 | round trip: a record saved under a fresh id reads back unchanged, and the file stays well-terminated |
| `MetaData.Serialize` | data.go:63 | a file written only by saves is empty or ends with a newline |
| `MetaData.FindSerialized` | data.go:84-105 | for a file written only by saves, the lookup returns the oldest saved record with the id, or not found |
| `MetaData.CommaInNameBreaksRoundTrip` | data.go:63-99 | the name `b,c` reads back as `b` with date 0 |
| `MetaData.PartialLineSwallowsNextRecord` | data.go:84-90 | one instance of a lost record: after the partial last line `x`, the next saved record `{a, n, 1}` cannot be found |
| `MetaData.PartialLineCorruptsNextRecord` | data.go:84-99 | one instance of a corrupted record: after the partial last line `a,n` (not itself a record), the next saved record `{a, n, 1}` reads back as `{a, na, 0}` |
| `Keeper.CanonicalUuidHasNoSeparators` | data.go:141 | a canonical UUID string holds neither `,` nor a newline |
| `Keeper.InFolderFileKeeper.Save` | data.go:136-169 | an empty folder name is an error and changes nothing. A failed folder, create or write step returns that error, and only the write failure leaves an empty blob. Once the blob holds the bytes, the result and the metadata file follow the metadata `Save`, and a failed append leaves the blob in place. On success it returns the id, with the blob and the appended line stored |
| `Keeper.InFolderFileKeeper.GetById` | data.go:171-187 | returns what `Retrieve` specifies |
| `Keeper.Retrieve` | data.go:171-187 | an empty folder name is an error. A metadata lookup error is passed on unchanged. A missing `<folder>/<id>` (`BlobPath`, the path data.go:148 and data.go:181 build) is `ErrNotExist`. When the record is found and the blob exists, a failed blob read returns the read error and a successful one returns the bytes at `<folder>/<id>` with the record's name. Only that last case is success |
| `Keeper.CreateInFolderFileKeeper` | data.go:123-134 | a missing repository panics. Otherwise an empty folder name becomes the default `/store/files`, a given non-empty name is kept (so the name is never empty), and the repository is the one given |
| `Keeper.SaveThenGetById` | data.go:136-187 | round trip: take a fresh canonical UUID, a name without separators, a well-terminated metadata file and a metadata path other than the blob's. Then `GetById` on the files a successful `Save` leaves returns the saved bytes and name |
| `Keeper.MetaDataFailureOrphansBlob` | data.go:156-166 | when the metadata append fails after the blob was written, the blob keeps the bytes but `GetById` for the id fails |

## Left out

- `server.go` is not part of this model. It holds the HTTP routing, multipart parsing, status codes, the listening loop, the environment-variable configuration and the `Writer` adapter.
- `uuid.New()` and `time.Now()` are parameters. The uniqueness of ids across saves is a property of the UUID generator, so it is an assumption. The round-trip lemmas require that the lookup does not find the id: no earlier line with three or more fields has it as field 0. A shorter line that holds the id is allowed.
- Operating-system behaviour beyond success or failure is not modelled: permissions, modes, partial writes (a failed write writes nothing here), `Close`, and which errors a real system can return in which state.
- The `fmt.Printf` diagnostics are not modelled.
- Error texts are not modelled. `FolderNameEmpty` stands for both "FolderName is empty" with a trailing newline (from the keeper's `Save`) and without one (from its `GetById`).
- Paths are compared as plain byte strings. `a//b` and `a/b`, relative paths and symbolic links are different files here, so the condition that the metadata path differs from the blob path is only a string inequality.
- Concurrency between requests is not modelled, including interleaved appends and reads racing an append.
- Go's `int` is taken as 64 bits. The date is an `Int64`, and `strconv.Atoi` is modelled for that width.
- The two Go interfaces (`FileMetaDataRepository`, `FileKeeper`) are each modelled by their one implementation. A keeper value whose repository is nil, built without the constructor, is not modelled.
