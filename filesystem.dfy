/** The part of the operating system the storage core uses: a map from path
    to file bytes and a set of directories. Whether a call succeeds is decided
    by the environment; each call takes that decision as an `Outcome`. */
module FileSystem {
  import opened Errors
  import opened Bytes

  type Path = Str

  /** The operating system's answer to one call. */
  datatype Outcome = Succeeds | FailsWith(err: IoError)

  /** The bytes at `path`, or nothing when there is no such file. */
  function ContentOf(files: map<Path, Str>, path: Path): Str
  {
    if path in files then files[path] else []
  }

  /** `os.ReadFile`: a missing file is always `ErrNotExist`; an existing one is
      read whole unless the environment makes the read fail. */
  function Read(files: map<Path, Str>, path: Path, o: Outcome): (r: Result<Str>)
    ensures r.Ok? <==> path in files && o.Succeeds?
    ensures r.Ok? ==> r.value == files[path]
    ensures path !in files ==> r == Err(Io(NotExist))
    ensures path in files && o.FailsWith? ==> r == Err(Io(o.err))
  {
    if path !in files then Err(Io(NotExist))
    else if o.FailsWith? then Err(Io(o.err))
    else Ok(files[path])
  }

  class FileSystem {
    var files: map<Path, Str>
    var dirs: set<Path>

    constructor (files: map<Path, Str>, dirs: set<Path>)
      ensures this.files == files && this.dirs == dirs
    {
      this.files := files;
      this.dirs := dirs;
    }

    /** `os.MkdirAll(path, os.ModePerm)`: afterwards the directory exists. */
    method MkdirAll(path: Path, o: Outcome) returns (err: Option<IoError>)
      modifies this
      ensures err == (if o.Succeeds? then None else Some(o.err))
      ensures dirs == (if o.Succeeds? then old(dirs) + {path} else old(dirs))
      ensures files == old(files)
    {
      if o.Succeeds? {
        dirs := dirs + {path};
        err := None;
      } else {
        err := Some(o.err);
      }
    }

    /** `os.OpenFile(path, os.O_APPEND|os.O_WRONLY|os.O_CREATE, 0644)`: an
        absent file is created empty, an existing one is kept as it is. */
    method OpenAppend(path: Path, o: Outcome) returns (err: Option<IoError>)
      modifies this
      ensures err == (if o.Succeeds? then None else Some(o.err))
      ensures files == (if o.Succeeds? then old(files)[path := ContentOf(old(files), path)] else old(files))
      ensures dirs == old(dirs)
    {
      if o.Succeeds? {
        files := files[path := ContentOf(files, path)];
        err := None;
      } else {
        err := Some(o.err);
      }
    }

    /** `os.Create(path)`: the file exists afterwards and is empty (an existing
        file is truncated). */
    method Create(path: Path, o: Outcome) returns (err: Option<IoError>)
      modifies this
      ensures err == (if o.Succeeds? then None else Some(o.err))
      ensures files == (if o.Succeeds? then old(files)[path := []] else old(files))
      ensures dirs == old(dirs)
    {
      if o.Succeeds? {
        files := files[path := []];
        err := None;
      } else {
        err := Some(o.err);
      }
    }

    /** `File.Write(data)` on a file opened for appending or just created:
        the bytes go after the current end. */
    method Write(path: Path, data: Str, o: Outcome) returns (err: Option<IoError>)
      requires path in files
      modifies this
      ensures err == (if o.Succeeds? then None else Some(o.err))
      ensures files == (if o.Succeeds? then old(files)[path := old(files)[path] + data] else old(files))
      ensures dirs == old(dirs)
    {
      if o.Succeeds? {
        files := files[path := files[path] + data];
        err := None;
      } else {
        err := Some(o.err);
      }
    }

    /** `os.ReadFile(path)` against the current files. */
    function ReadFile(path: Path, o: Outcome): (r: Result<Str>)
      reads this
      ensures r.Ok? ==> path in files && r.value == files[path]
    {
      Read(files, path, o)
    }
  }
}
