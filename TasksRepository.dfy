/** The file-backed task store (lab1/src/tasksRepository.js): the limits,
    the bootstrap of the data file, the bounded read and the atomic
    write through a temporary file. */
module TasksRepository {
  import opened Wrappers
  import opened Text
  import opened Json
  import opened TaskValidator
  import opened RepositoryErrors
  import opened TaskParser
  import opened FileSystem

  /** MAX_TASKS. */
  const MaxTasks: nat := 1000
  /** MAX_FILE_SIZE: 10 MiB. */
  const MaxFileSize: nat := 10 * 1024 * 1024

  /** The two limits as the error details print them. */
  const MaxFileSizeText: string := "10485760"
  const MaxTasksText: string := "1000"

  lemma MaxFileSizeTextValue()
    ensures IsCanonicalDecimal(MaxFileSizeText) && DecimalValue(MaxFileSizeText) == MaxFileSize
  {
    assert DecimalValue("1") == 1;
    assert "10"[..1] == "1";
    assert DecimalValue("10") == 10;
    assert "104"[..2] == "10";
    assert DecimalValue("104") == 104;
    assert "1048"[..3] == "104";
    assert DecimalValue("1048") == 1048;
    assert "10485"[..4] == "1048";
    assert DecimalValue("10485") == 10485;
    assert "104857"[..5] == "10485";
    assert DecimalValue("104857") == 104857;
    assert "1048576"[..6] == "104857";
    assert DecimalValue("1048576") == 1048576;
    assert "10485760"[..7] == "1048576";
    assert DecimalValue("10485760") == 10485760;
  }

  lemma MaxTasksTextValue()
    ensures IsCanonicalDecimal(MaxTasksText) && DecimalValue(MaxTasksText) == MaxTasks
  {
    assert DecimalValue("1") == 1;
    assert "10"[..1] == "1";
    assert DecimalValue("10") == 10;
    assert "100"[..2] == "10";
    assert DecimalValue("100") == 100;
    assert "1000"[..3] == "100";
    assert DecimalValue("1000") == 1000;
  }

  /** The texts are `${MAX_FILE_SIZE}` and `${MAX_TASKS}`. */
  lemma LimitTextsDenoteLimits()
    ensures MaxFileSizeText == NatToString(MaxFileSize)
    ensures MaxTasksText == NatToString(MaxTasks)
  {
    MaxFileSizeTextValue();
    CanonicalDecimalIsUnique(MaxFileSizeText, NatToString(MaxFileSize));
    MaxTasksTextValue();
    CanonicalDecimalIsUnique(MaxTasksText, NatToString(MaxTasks));
  }

  /** The data file. The JavaScript resolves it next to the source
      directory; the directory prefix plays no part in any check. */
  const DataPath: string := "tasks.json"
  /** Where a write is staged before the rename. */
  const TempPath: string := DataPath + ".tmp"
  /** `getTasksFilePath()`: the file every read and write works on; a
      write is staged next to it, under the same name plus ".tmp". */
  function TasksFilePath(): (p: string)
    ensures p == DataPath && TempPath == p + ".tmp"
  {
    DataPath
  }

  /** What the bootstrap writes into a missing data file. */
  const EmptyCollection: string := "[]"

  // ---------------------------------------------------------------------
  // The errors the repository builds.
  // ---------------------------------------------------------------------

  function FileTooLarge(size: nat): RepoError
  {
    Failure("File size exceeds maximum allowed size", 500,
            Some("File size: " + NatToString(size) + " bytes, max: " + MaxFileSizeText + " bytes"))
  }

  function TooManyStored(count: nat): RepoError
  {
    Failure("Number of tasks exceeds maximum allowed", 500,
            Some("Tasks count: " + NatToString(count) + ", max: " + MaxTasksText))
  }

  function NotAnArray(): RepoError
  {
    Failure("Tasks must be an array", 500, None)
  }

  function TooManyToSave(count: nat): RepoError
  {
    Failure("Number of tasks exceeds maximum allowed", 400,
            Some("Cannot save " + NatToString(count) + " tasks, maximum is " + MaxTasksText))
  }

  function DataTooLarge(size: nat): RepoError
  {
    Failure("Data size exceeds maximum file size", 400,
            Some("Data size: " + NatToString(size) + " bytes, max: " + MaxFileSizeText + " bytes"))
  }

  // ---------------------------------------------------------------------
  // What readTasks makes of the data file's text, and what writeTasks
  // checks before it touches the disk.
  // ---------------------------------------------------------------------

  /** The outcome of `readTasks` once the data file exists and holds `raw`
      (its size as `fs.stat` reports it is the UTF-8 length of `raw`). */
  function LoadTasks(raw: string, codec: Codec): (r: Result<seq<Json>, RepoError>)
    // The size limit is checked first, whatever the text holds.
    ensures Utf8Length(raw) > MaxFileSize ==> r == Err(FileTooLarge(Utf8Length(raw)))
    // White space alone reads as an empty collection, without parsing.
    ensures Utf8Length(raw) <= MaxFileSize && IsBlank(raw) ==> r == Ok([])
    // What is returned is a list of valid tasks within the count limit,
    // and it is exactly what the parser produced.
    ensures r.Ok? ==> |r.value| <= MaxTasks && forall k :: 0 <= k < |r.value| ==> IsValidTask(r.value[k])
    ensures r.Ok? && !IsBlank(raw) ==> ParseTasks(raw, codec) == r
    // Parser failures are passed on, and a parsed list over the limit is refused.
    ensures Utf8Length(raw) <= MaxFileSize && !IsBlank(raw) && ParseTasks(raw, codec).Err? ==>
              r == ParseTasks(raw, codec)
    ensures Utf8Length(raw) <= MaxFileSize && !IsBlank(raw) && ParseTasks(raw, codec).Ok? &&
            |ParseTasks(raw, codec).value| > MaxTasks ==>
              r == Err(TooManyStored(|ParseTasks(raw, codec).value|))
    // A parsed list within the limit is returned as it is.
    ensures Utf8Length(raw) <= MaxFileSize && !IsBlank(raw) && ParseTasks(raw, codec).Ok? &&
            |ParseTasks(raw, codec).value| <= MaxTasks ==>
              r == ParseTasks(raw, codec)
    // Every read-side failure is a server error.
    ensures r.Err? ==> r.error.Failure? && r.error.statusCode == 500
  {
    var size := Utf8Length(raw);
    if size > MaxFileSize then Err(FileTooLarge(size))
    else if IsBlank(raw) then Ok([])
    else
      match ParseTasks(raw, codec)
      case Err(e) => Err(e)
      case Ok(tasks) => if |tasks| > MaxTasks then Err(TooManyStored(|tasks|)) else Ok(tasks)
  }

  /** The checks `writeTasks` makes before any filesystem call, in their
      order; on success, the text that is to be written. */
  function CheckWrite(tasks: Json, codec: Codec): (r: Result<string, RepoError>)
    // The write goes ahead exactly when every precondition holds.
    ensures r.Ok? <==>
              && tasks.JArray?
              && |tasks.elems| <= MaxTasks
              && (forall k :: 0 <= k < |tasks.elems| ==> IsValidTask(tasks.elems[k]))
              && Utf8Length(codec.stringify(tasks)) <= MaxFileSize
    ensures r.Ok? ==> r.value == codec.stringify(tasks)
    ensures !tasks.JArray? ==> r == Err(NotAnArray())
    ensures tasks.JArray? && |tasks.elems| > MaxTasks ==> r == Err(TooManyToSave(|tasks.elems|))
    // The first invalid record decides the error, which is the validator's own.
    ensures tasks.JArray? && |tasks.elems| <= MaxTasks ==>
              forall i :: 0 <= i < |tasks.elems| && !IsValidTask(tasks.elems[i]) &&
                          (forall k :: 0 <= k < i ==> IsValidTask(tasks.elems[k])) ==>
                r == Err(Invalid(ValidateTaskStructure(tasks.elems[i], i).error))
    // A valid collection that serialises too large is refused with its byte size.
    ensures tasks.JArray? && |tasks.elems| <= MaxTasks &&
            (forall k :: 0 <= k < |tasks.elems| ==> IsValidTask(tasks.elems[k])) &&
            Utf8Length(codec.stringify(tasks)) > MaxFileSize ==>
              r == Err(DataTooLarge(Utf8Length(codec.stringify(tasks))))
  {
    if !tasks.JArray? then Err(NotAnArray())
    else if |tasks.elems| > MaxTasks then Err(TooManyToSave(|tasks.elems|))
    else
      match ValidateAll(tasks.elems, 0)
      case Fail(e) => Err(Invalid(e))
      case Pass =>
        var text := codec.stringify(tasks);
        var size := Utf8Length(text);
        if size > MaxFileSize then Err(DataTooLarge(size)) else Ok(text)
  }

  /** Round trip: the text `writeTasks` puts in the data file reads back
      as the very list that was written. */
  lemma {:induction false} WriteThenLoad(tasks: Json, codec: Codec)
    requires RejectsBlank(codec) && RoundTrips(codec, tasks)
    requires CheckWrite(tasks, codec).Ok?
    ensures LoadTasks(CheckWrite(tasks, codec).value, codec) == Ok(tasks.elems)
  {
    var text := CheckWrite(tasks, codec).value;
    StringifyIsNotBlank(codec, tasks);
    assert codec.parse(text) == Parsed(tasks);
    assert ParseTasks(text, codec) == Ok(tasks.elems);
  }

  /** A data file the bootstrap has just created reads as an empty list,
      given that the JSON runtime parses "[]" as the empty array. */
  lemma FreshStoreReadsEmpty(codec: Codec)
    requires codec.parse(EmptyCollection) == Parsed(JArray([]))
    ensures LoadTasks(EmptyCollection, codec) == Ok([])
  {
    assert !IsTrimmable(EmptyCollection[0]);
  }

  /** A record holding only a title lacks the other three required fields. */
  lemma TitleOnlyRecordMisses()
    ensures Missing(RequiredFields, map["title" := JString("x")]) == [Id, Completed, CreatedAt]
  {
    assert RequiredFields[1..] == [Title, Completed, CreatedAt];
    assert RequiredFields[1..][1..] == [Completed, CreatedAt];
    assert RequiredFields[1..][1..][1..] == [CreatedAt];
    assert RequiredFields[1..][1..][1..][1..] == [];
  }

  /** The example of a rejected write: a record holding only a title is
      refused for its three missing fields, before anything is written. */
  lemma TitleOnlyRecordIsRejected(codec: Codec)
    ensures CheckWrite(JArray([JObject(map["title" := JString("x")])]), codec)
            == Err(Invalid(MissingFields(0, [Id, Completed, CreatedAt])))
  {
    TitleOnlyRecordMisses();
  }

  // ---------------------------------------------------------------------
  // The filesystem side.
  // ---------------------------------------------------------------------

  /** `after` is `before`, or `before` with a data file (once absent) that
      holds all or part of "[]": what a bootstrap may leave behind. */
  predicate BootstrappedFrom(before: map<string, string>, after: map<string, string>)
  {
    || after == before
    || (&& DataPath !in before && DataPath in after
        && after[DataPath] <= EmptyCollection
        && after == before[DataPath := after[DataPath]])
  }

  /** `ensureFileExists()`. */
  method EnsureFileExists(fs: Fs) returns (r: Outcome<ErrCode>)
    modifies fs
    ensures BootstrappedFrom(old(fs.files), fs.files)
    // An existing file is left as it is (so the bootstrap is idempotent),
    // and any error but ENOENT from the access check is thrown on.
    ensures DataPath in old(fs.files) ==>
              && fs.files == old(fs.files)
              && fs.trace == old(fs.trace) + [Event(AccessOp(DataPath), OutcomeFailure(r))]
              && r != Fail(ENOENT)
    // Only an absent file is written, and then with "[]".
    ensures DataPath !in old(fs.files) ==>
              fs.trace == old(fs.trace) + [Event(AccessOp(DataPath), Some(ENOENT)),
                                           Event(WriteFileOp(DataPath, EmptyCollection), OutcomeFailure(r))]
    ensures r.Pass? ==>
              && DataPath in fs.files
              && fs.files == if DataPath in old(fs.files) then old(fs.files)
                             else old(fs.files)[DataPath := EmptyCollection]
  {
    var access := fs.Access(DataPath);
    if access.Fail? {
      if access.error == ENOENT {
        r := fs.WriteFile(DataPath, EmptyCollection);
        return;
      }
      r := access;
      return;
    }
    r := Pass;
  }

  /** The calls `readTasks` makes once the data file exists, holding
      `text`, and what it returns: a `stat`, then a `readFile` only when the
      size is within the limit, and the first call that throws ends the
      read with that call's error. Otherwise the result is `LoadTasks`. */
  predicate ReadFrom(text: string, codec: Codec, events: seq<Event>, r: Result<seq<Json>, RepoError>)
  {
    && |events| >= 1
    && events[0].op == StatOp(DataPath)
    && (events[0].failure.Some? ==> |events| == 1 && r == Err(Io(events[0].failure.value)))
    && (events[0].failure.None? && Utf8Length(text) > MaxFileSize ==>
          |events| == 1 && r == Err(FileTooLarge(Utf8Length(text))))
    && (events[0].failure.None? && Utf8Length(text) <= MaxFileSize ==>
          && |events| == 2
          && events[1].op == ReadFileOp(DataPath)
          && (events[1].failure.Some? ==> r == Err(Io(events[1].failure.value)))
          && (events[1].failure.None? ==> r == LoadTasks(text, codec)))
  }

  /** The calls `ensureFileExists` makes: an `access`, and after an ENOENT
      a write of "[]". */
  predicate BootstrapCalls(before: map<string, string>, events: seq<Event>)
  {
    if DataPath in before then
      |events| == 1 && events[0].op == AccessOp(DataPath) && events[0].failure != Some(ENOENT)
    else
      && |events| == 2
      && events[0] == Event(AccessOp(DataPath), Some(ENOENT))
      && events[1].op == WriteFileOp(DataPath, EmptyCollection)
  }

  /** `readTasks()` from the `fs.stat` call on, once the data file exists:
      check the size, read, treat blank text as empty, parse, check the count. */
  method ReadDataFile(fs: Fs, codec: Codec) returns (r: Result<seq<Json>, RepoError>)
    requires DataPath in fs.files
    modifies fs
    ensures fs.files == old(fs.files)
    ensures old(fs.trace) <= fs.trace
    // Exactly the calls made, and how the result follows from them.
    ensures ReadFrom(fs.files[DataPath], codec, fs.trace[|old(fs.trace)|..], r)
    // Apart from filesystem errors, the result is what the file's text holds.
    ensures !(r.Err? && r.error.Io?) ==> r == LoadTasks(fs.files[DataPath], codec)
    // A file over the size limit is never read.
    ensures Utf8Length(fs.files[DataPath]) > MaxFileSize ==>
              forall e :: e in fs.trace[|old(fs.trace)|..] ==> e.op != ReadFileOp(DataPath)
  {
    var stat := fs.Stat(DataPath);
    if stat.Err? {
      r := Err(Io(stat.error));
      return;
    }
    if stat.value > MaxFileSize {
      r := Err(FileTooLarge(stat.value));
      assert fs.trace[|old(fs.trace)|..] == [Event(StatOp(DataPath), None)];
      return;
    }
    var read := fs.ReadFile(DataPath);
    if read.Err? {
      r := Err(Io(read.error));
      return;
    }
    var raw := read.value;
    if IsBlank(raw) {
      r := Ok([]);
      return;
    }
    var tasks := ParseTasks(raw, codec);
    if tasks.Err? {
      r := Err(tasks.error);
      return;
    }
    if |tasks.value| > MaxTasks {
      r := Err(TooManyStored(|tasks.value|));
      return;
    }
    r := Ok(tasks.value);
  }

  /** `readTasks()`. */
  method ReadTasks(fs: Fs, codec: Codec) returns (r: Result<seq<Json>, RepoError>)
    modifies fs
    ensures BootstrappedFrom(old(fs.files), fs.files)
    ensures old(fs.trace) <= fs.trace
    // Exactly the calls made: the bootstrap's, then, if it succeeded, the read's.
    ensures var events := fs.trace[|old(fs.trace)|..];
            var boot := if DataPath in old(fs.files) then 1 else 2;
            && boot <= |events|
            && BootstrapCalls(old(fs.files), events[..boot])
            && (events[boot - 1].failure.Some? ==>
                  |events| == boot && r == Err(Io(events[boot - 1].failure.value)))
            && (events[boot - 1].failure.None? ==>
                  DataPath in fs.files && ReadFrom(fs.files[DataPath], codec, events[boot..], r))
    // Once the bootstrap succeeded, the data file holds its old text, or
    // exactly "[]" when it was just created.
    ensures var events := fs.trace[|old(fs.trace)|..];
            var boot := if DataPath in old(fs.files) then 1 else 2;
            boot <= |events| && events[boot - 1].failure.None? ==>
              fs.files == if DataPath in old(fs.files) then old(fs.files)
                          else old(fs.files)[DataPath := EmptyCollection]
    // A filesystem error is the one the last call threw.
    ensures r.Err? && r.error.Io? ==>
              var events := fs.trace[|old(fs.trace)|..];
              |events| >= 1 && events[|events| - 1].failure == Some(r.error.code)
    // Apart from filesystem errors, the result is what the file's text holds.
    ensures !(r.Err? && r.error.Io?) ==>
              DataPath in fs.files && r == LoadTasks(fs.files[DataPath], codec)
    ensures r.Ok? ==> |r.value| <= MaxTasks && forall k :: 0 <= k < |r.value| ==> IsValidTask(r.value[k])
    // A file over the size limit is never read.
    ensures DataPath in fs.files && Utf8Length(fs.files[DataPath]) > MaxFileSize ==>
              forall e :: e in fs.trace[|old(fs.trace)|..] ==> e.op != ReadFileOp(DataPath)
  {
    var ensured := EnsureFileExists(fs);
    if ensured.Fail? {
      r := Err(Io(ensured.error));
      return;
    }
    ghost var bootstrap := fs.trace;
    r := ReadDataFile(fs, codec);
    assert fs.trace[|old(fs.trace)|..] == bootstrap[|old(fs.trace)|..] + fs.trace[|bootstrap|..];
  }

  /** The first read of a store with no data file: the bootstrap creates
      it with "[]", so the read gives the empty list unless the filesystem
      refuses a call. */
  method ReadFreshStore(fs: Fs, codec: Codec) returns (r: Result<seq<Json>, RepoError>)
    requires DataPath !in fs.files
    requires codec.parse(EmptyCollection) == Parsed(JArray([]))
    modifies fs
    ensures !(r.Err? && r.error.Io?) ==> r == Ok([])
  {
    r := ReadTasks(fs, codec);
    FreshStoreReadsEmpty(codec);
  }

  /** The data file holds the same thing (or is absent) in both maps. */
  predicate SameDataFile(before: map<string, string>, after: map<string, string>)
  {
    && (DataPath in after <==> DataPath in before)
    && (DataPath in after ==> after[DataPath] == before[DataPath])
  }

  /** The data file holds `text`, the temporary file is gone, nothing
      else changed, and the calls made were the write and the rename,
      both successful. */
  ghost predicate Committed(before: map<string, string>, after: map<string, string>, events: seq<Event>, text: string)
  {
    && after == Without(before, TempPath)[DataPath := text]
    && events == [Event(WriteFileOp(TempPath, text), None), Event(RenameOp(TempPath, DataPath), None)]
  }

  /** After a failed write or rename: the data file keeps its old content,
      no file but the temporary one changed, the error `code` is the one
      the write or the rename threw, removing the temporary file was
      attempted last, and if that removal succeeded the file is gone. */
  ghost predicate RolledBack(before: map<string, string>, after: map<string, string>, events: seq<Event>,
                       text: string, code: ErrCode)
  {
    && SameDataFile(before, after)
    && (forall p :: p != TempPath && p != DataPath ==>
          (p in after <==> p in before) && (p in after ==> after[p] == before[p]))
    && (|| (|events| == 2 && events[0] == Event(WriteFileOp(TempPath, text), Some(code)))
        || (&& |events| == 3
            && events[0] == Event(WriteFileOp(TempPath, text), None)
            && events[1] == Event(RenameOp(TempPath, DataPath), Some(code))))
    && events[|events| - 1].op == UnlinkOp(TempPath)
    && (events[|events| - 1].failure.None? ==> TempPath !in after)
  }

  /** The try/catch block of `writeTasks`: write `text` to the temporary
      file, rename it over the data file, and on any error attempt to
      unlink the temporary file, discard that attempt's outcome and throw
      the original error. */
  method ReplaceDataFile(fs: Fs, text: string) returns (r: Outcome<ErrCode>)
    modifies fs
    ensures old(fs.trace) <= fs.trace
    ensures r.Pass? ==> Committed(old(fs.files), fs.files, fs.trace[|old(fs.trace)|..], text)
    ensures r.Fail? ==> RolledBack(old(fs.files), fs.files, fs.trace[|old(fs.trace)|..], text, r.error)
  {
    var failure: Option<ErrCode> := None;
    var written := fs.WriteFile(TempPath, text);
    if written.Fail? {
      failure := Some(written.error);
    } else {
      var renamed := fs.Rename(TempPath, DataPath);
      if renamed.Fail? {
        failure := Some(renamed.error);
      }
    }
    if failure.Some? {
      // Best-effort cleanup: the unlink's own outcome is discarded.
      var cleanup := fs.Unlink(TempPath);
      r := Fail(failure.value);
    } else {
      r := Pass;
    }
  }

  /** `writeTasks(tasks)`. */
  method WriteTasks(fs: Fs, tasks: Json, codec: Codec) returns (r: Outcome<RepoError>)
    modifies fs
    ensures old(fs.trace) <= fs.trace
    // Nothing is touched unless every precondition holds.
    ensures CheckWrite(tasks, codec).Err? ==>
              && r == Fail(CheckWrite(tasks, codec).error)
              && fs.files == old(fs.files) && fs.trace == old(fs.trace)
    // Otherwise the data file is either fully replaced by the serialised
    // text or left as it was, and a failure is the filesystem's own error.
    ensures CheckWrite(tasks, codec).Ok? && r.Pass? ==>
              Committed(old(fs.files), fs.files, fs.trace[|old(fs.trace)|..], CheckWrite(tasks, codec).value)
    ensures CheckWrite(tasks, codec).Ok? && r.Fail? ==>
              && r.error.Io?
              && RolledBack(old(fs.files), fs.files, fs.trace[|old(fs.trace)|..],
                            CheckWrite(tasks, codec).value, r.error.code)
  {
    if !tasks.JArray? {
      r := Fail(NotAnArray());
      return;
    }
    var records := tasks.elems;
    if |records| > MaxTasks {
      r := Fail(TooManyToSave(|records|));
      return;
    }
    for i := 0 to |records|
      invariant forall k :: 0 <= k < i ==> IsValidTask(records[k])
    {
      var check := ValidateTaskStructure(records[i], i);
      if check.Fail? {
        ghost var first := ValidateAll(records, 0);
        assert first.Fail? && first.error.index == i;
        r := Fail(Invalid(check.error));
        return;
      }
    }
    var text := codec.stringify(tasks);
    var size := Utf8Length(text);
    if size > MaxFileSize {
      r := Fail(DataTooLarge(size));
      return;
    }
    var replaced := ReplaceDataFile(fs, text);
    r := if replaced.Fail? then Fail(Io(replaced.error)) else Pass;
  }

  /** The round trip through the disk: after a successful `writeTasks`,
      `readTasks` gives back the list that was written, unless the
      filesystem refuses one of its calls. */
  method WriteThenRead(fs: Fs, tasks: Json, codec: Codec)
      returns (written: Outcome<RepoError>, read: Result<seq<Json>, RepoError>)
    requires RejectsBlank(codec) && RoundTrips(codec, tasks)
    modifies fs
    ensures written.Pass? && !(read.Err? && read.error.Io?) ==> tasks.JArray? && read == Ok(tasks.elems)
  {
    written := WriteTasks(fs, tasks, codec);
    read := ReadTasks(fs, codec);
    if written.Pass? && !(read.Err? && read.error.Io?) {
      WriteThenLoad(tasks, codec);
    }
  }
}
