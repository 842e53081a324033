/** The part of Node's `fs.promises` the repository uses, over a flat map
    from path to text. Every call may be refused by the operating system
    for reasons this model does not track (permissions, a full disk, ...);
    `ENOENT` is reported exactly when the path is absent. Each call is
    appended to `trace` together with the error it raised, so that callers
    can state which calls they made, in which order, and what they threw. */
module FileSystem {
  import opened Wrappers
  import opened Text

  /** The `error.code` values of Node's filesystem errors. */
  datatype ErrCode = ENOENT | EACCES | EPERM | EIO | ENOSPC | EISDIR | EBUSY | EXDEV

  datatype FsOp =
    | AccessOp(path: string)
    | StatOp(path: string)
    | ReadFileOp(path: string)
    | WriteFileOp(path: string, data: string)
    | RenameOp(source: string, target: string)
    | UnlinkOp(path: string)

  /** One call and the error it threw, if any. */
  datatype Event = Event(op: FsOp, failure: Option<ErrCode>)

  function OutcomeFailure(r: Outcome<ErrCode>): (f: Option<ErrCode>)
    ensures f.Some? <==> r.Fail?
  {
    if r.Fail? then Some(r.error) else None
  }

  function ResultFailure<T>(r: Result<T, ErrCode>): (f: Option<ErrCode>)
    ensures f.Some? <==> r.Err?
  {
    if r.Err? then Some(r.error) else None
  }

  /** `files` minus `path`, everything else kept. */
  function Without(files: map<string, string>, path: string): (r: map<string, string>)
    ensures path !in r && forall p :: p != path ==> (p in r <==> p in files)
    ensures forall p :: p in r ==> r[p] == files[p]
  {
    files - {path}
  }

  class Fs {
    /** Path to the file's text (files are read and written as UTF-8). */
    var files: map<string, string>
    /** Every call made so far, oldest first. */
    var trace: seq<Event>

    constructor (initial: map<string, string>)
      ensures files == initial && trace == []
    {
      files := initial;
      trace := [];
    }

    /** The operating system's answer to a call on a path that exists:
        success, or some error other than ENOENT. */
    static method Refusal() returns (e: Option<ErrCode>)
      ensures e != Some(ENOENT)
    {
      var refused: bool :| true;
      if refused {
        assert EIO != ENOENT;
        var code: ErrCode :| code != ENOENT;
        e := Some(code);
      } else {
        e := None;
      }
    }

    /** `fs.access(path)`: succeeds only on an existing path. */
    method Access(path: string) returns (r: Outcome<ErrCode>)
      modifies this
      ensures files == old(files)
      ensures trace == old(trace) + [Event(AccessOp(path), OutcomeFailure(r))]
      ensures path !in files ==> r == Fail(ENOENT)
      ensures path in files ==> r != Fail(ENOENT)
    {
      if path !in files {
        r := Fail(ENOENT);
      } else {
        var e := Refusal();
        r := if e.Some? then Fail(e.value) else Pass;
      }
      trace := trace + [Event(AccessOp(path), OutcomeFailure(r))];
    }

    /** `fs.stat(path).size`: the file's length in UTF-8 bytes. */
    method Stat(path: string) returns (r: Result<nat, ErrCode>)
      modifies this
      ensures files == old(files)
      ensures trace == old(trace) + [Event(StatOp(path), ResultFailure(r))]
      ensures path !in files ==> r == Err(ENOENT)
      ensures path in files ==> r == Ok(Utf8Length(files[path])) || (r.Err? && r.error != ENOENT)
    {
      if path !in files {
        r := Err(ENOENT);
      } else {
        var e := Refusal();
        r := if e.Some? then Err(e.value) else Ok(Utf8Length(files[path]));
      }
      trace := trace + [Event(StatOp(path), ResultFailure(r))];
    }

    /** `fs.readFile(path, 'utf-8')`: the file's whole text. */
    method ReadFile(path: string) returns (r: Result<string, ErrCode>)
      modifies this
      ensures files == old(files)
      ensures trace == old(trace) + [Event(ReadFileOp(path), ResultFailure(r))]
      ensures path !in files ==> r == Err(ENOENT)
      ensures path in files ==> r == Ok(files[path]) || (r.Err? && r.error != ENOENT)
    {
      if path !in files {
        r := Err(ENOENT);
      } else {
        var e := Refusal();
        r := if e.Some? then Err(e.value) else Ok(files[path]);
      }
      trace := trace + [Event(ReadFileOp(path), ResultFailure(r))];
    }

    /** `fs.writeFile(path, data, 'utf-8')`: creates or truncates the file
        and writes `data`. A write that fails may have done nothing or may
        have left a prefix of `data` behind; no other path is touched. */
    method WriteFile(path: string, data: string) returns (r: Outcome<ErrCode>)
      modifies this
      ensures trace == old(trace) + [Event(WriteFileOp(path, data), OutcomeFailure(r))]
      ensures r.Pass? ==> files == old(files)[path := data]
      ensures r.Fail? ==>
                || files == old(files)
                || (path in files && files[path] <= data && files == old(files)[path := files[path]])
    {
      var e := Refusal();
      if e.None? {
        files := files[path := data];
        r := Pass;
      } else {
        var torn: bool :| true;
        if torn {
          var k: nat :| k <= |data|;
          files := files[path := data[..k]];
        }
        r := Fail(e.value);
      }
      trace := trace + [Event(WriteFileOp(path, data), OutcomeFailure(r))];
    }

    /** `fs.rename(source, target)`: moves the file in one step, replacing
        whatever `target` held; a rename that fails changes nothing. */
    method Rename(source: string, target: string) returns (r: Outcome<ErrCode>)
      modifies this
      ensures trace == old(trace) + [Event(RenameOp(source, target), OutcomeFailure(r))]
      ensures source !in old(files) ==> r == Fail(ENOENT)
      ensures r.Pass? ==> source in old(files) && files == Without(old(files), source)[target := old(files)[source]]
      ensures r.Fail? ==> files == old(files)
    {
      if source !in files {
        r := Fail(ENOENT);
      } else {
        var e := Refusal();
        if e.None? {
          files := Without(files, source)[target := files[source]];
          r := Pass;
        } else {
          r := Fail(e.value);
        }
      }
      trace := trace + [Event(RenameOp(source, target), OutcomeFailure(r))];
    }

    /** `fs.unlink(path)`: removes the file; an unlink that fails changes nothing. */
    method Unlink(path: string) returns (r: Outcome<ErrCode>)
      modifies this
      ensures trace == old(trace) + [Event(UnlinkOp(path), OutcomeFailure(r))]
      ensures path !in old(files) ==> r == Fail(ENOENT)
      ensures r.Pass? ==> path in old(files) && files == Without(old(files), path)
      ensures r.Fail? ==> files == old(files)
    {
      if path !in files {
        r := Fail(ENOENT);
      } else {
        var e := Refusal();
        if e.None? {
          files := Without(files, path);
          r := Pass;
        } else {
          r := Fail(e.value);
        }
      }
      trace := trace + [Event(UnlinkOp(path), OutcomeFailure(r))];
    }
  }
}
