# File-backed task store, modelled in Dafny

This project models the file-backed task repository of the task-management
API (`lab1/src/tasksRepository.js`). The repository keeps the whole task
collection as one JSON array in `tasks.json`. It does three things:

- **Record validation** (`validateTaskStructure`). This is a structural and
  type check on one task record. The first failing check decides the error.
- **Parsing** (`parseTasks`). It turns the file's text into a validated list
  and sorts failures into schema errors and malformed JSON.
- **The durable store** (`ensureFileExists`, `readTasks`, `writeTasks`). It
  creates the file with `[]` on first use. It enforces `MAX_TASKS = 1000`
  and `MAX_FILE_SIZE = 10 MiB`. It reads whitespace-only content as an empty
  list. It writes atomically: first to `tasks.json.tmp`, then a rename over
  `tasks.json`, with best-effort removal of the temporary file on failure.

Layout, one module per file:

| file | module | what it holds |
|---|---|---|
| `Wrappers.dfy` | `Wrappers` | `Option`, `Result`, `Outcome`: thrown errors become returned values |
| `Text.dfy` | `Text` | decimal rendering, `join`, `includes`, `trim()` blankness, UTF-8 byte length |
| `Json.dfy` | `Json` | JSON values, the `Codec` (the engine's `JSON.parse`/`JSON.stringify`) and its round-trip hypothesis |
| `TaskValidator.dfy` | `TaskValidator` | `validateTaskStructure` and the `forEach` over a list |
| `RepositoryErrors.dfy` | `RepositoryErrors` | the errors the repository throws |
| `TaskParser.dfy` | `TaskParser` | `parseTasks` |
| `FileSystem.dfy` | `FileSystem` | `fs.promises` over a path→text map, where every call may fail |
| `TasksRepository.dfy` | `TasksRepository` | the limits, `ensureFileExists`, `readTasks`, `writeTasks` |

How the model is built:

- **Pure parts are functions.** The validator and the parser return a result
  value instead of throwing.
- **The filesystem is a class.** `FileSystem.Fs` holds `files`, a map from
  path to text, and `trace`, every call made so far with the error it threw.
- **The three store operations are methods.** They change the filesystem
  step by step. Their postconditions say which paths changed, which calls
  were made in which order, and how the result follows from what each call
  returned.
- **Failures are non-deterministic.** Any filesystem call may be refused with
  an error other than `ENOENT`. `ENOENT` is reported exactly when the path
  is absent. A failed `writeFile` may leave nothing or a prefix of the data.
- **Each method has a function that specifies it.** `LoadTasks` is what
  `readTasks` makes of the file's text. `CheckWrite` holds the checks
  `writeTasks` makes before touching the disk.
- **The JSON engine is an input.** `JSON.parse` and
  `JSON.stringify(tasks, null, 2)` are not reimplemented. They arrive as a
  `Codec` value. The round-trip results assume two hypotheses about it.
  `Json.RoundTrips(codec, tasks)` says that parsing the serialised list gives
  it back, for the list written. `Json.RejectsBlank(codec)` says that text
  which `trim()` empties is not JSON. `Json.HypothesesAreSatisfiable` shows
  that some codec meets both for any value.

Where the design description and the code differ, the model follows the code:

- Valid JSON that is not an array reads as `[]`, not as an error.
- `id` may be any number, not only an integer.
- There is no non-empty-title check, and no id allocation.
- A record that fails validation in `writeTasks` surfaces as the validator's
  own error, with no status code. The HTTP layer then answers 500.
- `parseTasks` tells schema errors from syntax errors by looking for
  "Task at index" in the thrown message. A `SyntaxError` whose engine message
  happens to contain that text keeps its own message as details. The model
  keeps this behaviour.

## Model

| member | source | states |
|---|---|---|
| `TaskValidator.ValidateTaskStructure` | lab1/src/tasksRepository.js:25-64 | Accepts exactly the records that meet the declarative schema `IsValidTask`, in both directions. A non-object (null, an array, a primitive) is rejected as "must be an object" before any field is looked at. Every error carries the record's index. |
| `TaskValidator.ValidationOrder` | lab1/src/tasksRepository.js:30-63 | Missing required fields are reported before any type, and the error lists exactly the missing ones. A type error occurs only when no field is missing, and it names the first field in check order (`id`, `title`, `completed`, `createdAt`, `description`, `updatedAt`) whose type is wrong. Conversely, that first wrong field is always the one reported. |
| `TaskValidator.Missing` | lab1/src/tasksRepository.js:30-31 | The result holds exactly the required fields the object lacks, and it is a subsequence of the required list, so it keeps their order. |
| `TaskValidator.MissingMeansInvalid` | lab1/src/tasksRepository.js:30-37 | A record lacking a required field is not a valid task. |
| `TaskValidator.SchemaError.Message` | lab1/src/tasksRepository.js:27-62 | Every validator message starts with "Task at index ", the marker `parseTasks` relies on. |
| `TaskValidator.ValidateAll` | lab1/src/tasksRepository.js:74-76 | The `forEach` validation passes exactly when every record is valid. Otherwise it fails with the validator's error for the first invalid record: that record's index is in range, and every earlier record is valid. |
| `TaskParser.ParseTasks` | lab1/src/tasksRepository.js:66-91 | What is returned passes the validator. Non-array JSON gives `[]`. An array comes back unchanged exactly when all its records are valid. Otherwise the error is "Invalid tasks.json format", status 500, with the first invalid record's message as details. Malformed JSON gets details "tasks.json contains malformed JSON", unless the engine's message contains "Task at index". |
| `TasksRepository.LoadTasks` | lab1/src/tasksRepository.js:95-120 | The size limit is checked first, whatever the content. Blank content gives `[]`. A result holds at most `MAX_TASKS` valid records and is exactly the parser's output. Conversely, a parsed list within the limit is returned as it is. Parser errors pass through unchanged. A parsed list over the limit is refused. Every read-side error has status 500. |
| `TasksRepository.CheckWrite` | lab1/src/tasksRepository.js:123-151 | The write proceeds exactly when the input is an array of at most `MAX_TASKS` valid records whose serialisation fits in `MAX_FILE_SIZE`, and then the text is that serialisation. A non-array is "Tasks must be an array" (status 500). Too many records is refused with status 400 and the count. The first invalid record's validator error is returned as is. A valid collection whose serialisation is too large is refused with status 400 and its byte size. |
| `TasksRepository.WriteThenLoad` | lab1/src/tasksRepository.js:143-156 | Round trip: if the runtime parses the serialised list back to itself and rejects blank text, then the text `writeTasks` would write reads back through `readTasks`'s logic as the very list written. |
| `TasksRepository.FreshStoreReadsEmpty` | lab1/src/tasksRepository.js:18 | A data file the bootstrap just created with "[]" reads as the empty list. |
| `TasksRepository.TitleOnlyRecordIsRejected` | lab1/src/tasksRepository.js:138-141 | `[{title: "x"}]` is refused before any write, with the missing fields `id, completed, createdAt`. |
| `TasksRepository.LimitTextsDenoteLimits` | lab1/src/tasksRepository.js:98-117 | The texts the error details print for the limits are exactly `${MAX_FILE_SIZE}` and `${MAX_TASKS}`, that is, `NatToString` of 10485760 and of 1000. |
| `TasksRepository.EnsureFileExists` | lab1/src/tasksRepository.js:13-23 | An existing file is left unchanged, so the bootstrap is idempotent, and any access error on it is rethrown. An absent file (ENOENT) gets exactly one write, of "[]". On success the file exists with that content or its old content. No other path changes. |
| `TasksRepository.ReadDataFile` | lab1/src/tasksRepository.js:95-120 | On an existing data file the calls are exactly a `stat`, then a `readFile` only when the size is within the limit. The first call that throws ends the read with that call's error. A file over the limit gives the size error. Otherwise the result is `LoadTasks` of the file's text. No file changes. |
| `TasksRepository.ReadTasks` | lab1/src/tasksRepository.js:93-121 | The calls are exactly the bootstrap's (`access`, and after ENOENT a write of "[]"), then, if it succeeded, the read's as in `ReadDataFile`. A filesystem error is the one the last call threw. Once the bootstrap succeeded, the data file holds its old text, or exactly "[]" when it was just created. Apart from filesystem errors the result is `LoadTasks` of the file's text, holding at most `MAX_TASKS` valid records. A file over the size limit is never read. Only the bootstrap changes any file. |
| `TasksRepository.ReadFreshStore` | lab1/src/tasksRepository.js:13-121 | The first read of a store with no data file returns the empty list, unless the filesystem refuses a call. |
| `TasksRepository.ReplaceDataFile` | lab1/src/tasksRepository.js:153-166 | On success the data file holds exactly the text, the temporary file is gone, and nothing else changed. On failure the data file keeps its old content and no other file changes. The unlink of the temporary file is attempted last and its outcome is discarded. The error returned is the one the write or the rename threw. |
| `TasksRepository.WriteTasks` | lab1/src/tasksRepository.js:123-167 | If any precondition fails (`CheckWrite`), that error is returned and no filesystem call is made. Otherwise the data file is either fully replaced by the serialised text or keeps its old content, and a failure is the filesystem's own error. |
| `TasksRepository.WriteThenRead` | lab1/src/tasksRepository.js:93-167 | Under the same two runtime hypotheses: after a successful `writeTasks`, `readTasks` returns the list that was written, unless the filesystem refuses one of its calls. `ReadTasks` states which call that is. |
| `Json.StringifyIsNotBlank` | lab1/src/tasksRepository.js:106-110 | If the runtime rejects blank text and round-trips a value, that value's serialisation is not blank, so what `writeTasks` wrote always reaches the parser on read. |
| `Text.Utf8Length` | lab1/src/tasksRepository.js:144 | The UTF-8 byte length lies between the character count and four times it, and equals the character count exactly for ASCII text. |
| `Text.Join` | lab1/src/tasksRepository.js:35 | `join(', ')` of no fields is empty, of one field is that field, and of several starts with the first field followed by the separator. |
| `Text.JoinShape` | lab1/src/tasksRepository.js:35 | A join ends with the last part, and its length is the parts' total length plus one separator per gap. |
| `Text.Contains` | lab1/src/tasksRepository.js:80 | `includes` holds exactly when some position starts an occurrence of the searched text. |
| `Text.NatToString` | lab1/src/tasksRepository.js:101 | The rendered number is non-empty, all digits, with no leading zero, and reads back as the number. |
| `Text.CanonicalDecimalIsUnique` | lab1/src/tasksRepository.js:101 | Two canonical digit strings with the same value are equal, so the contract of `NatToString` determines `${n}`. |
| `Text.TrimIsEmptyIffBlank` | lab1/src/tasksRepository.js:106 | `raw.trim()` is empty exactly when every character of `raw` is an ECMAScript WhiteSpace or LineTerminator character, which is what `IsBlank` tests. |
| `TasksRepository.TasksFilePath` | lab1/src/tasksRepository.js:169-171 | `getTasksFilePath` returns the path of the data file every read and write uses, and the write stages its text under that path plus ".tmp". |

## Left out

- lab1/routes/tasks.js, lab1/routes/auth.js and lab1/routes/admin.js are not part of this model. They are thin handlers over the external database and identity service.
- lab1/middleware/rateLimit.js, lab1/src/server.js, lab1/monitoring/sentry.js and lab1/supabase.js are not part of this model. They are configuration and wiring. The one fact used from server.js is that an error without `statusCode` is answered with 500 (line 28). It is recorded in a comment.
- The internals of `JSON.parse` and `JSON.stringify(tasks, null, 2)` are not modelled. They are the `Codec` parameter. The round-trip results assume `Json.RoundTrips` for the list written and `Json.RejectsBlank`. These are shown satisfiable by a toy codec, but they are not proved about any JavaScript engine.
- Values that are not JSON are not modelled: `undefined` properties, `NaN`/`Infinity` numbers and functions. They can occur in the in-memory array passed to `writeTasks`, and `JSON.stringify` drops or rewrites them. Task values are JSON values here.
- JavaScript strings are UTF-16, and a lone surrogate costs 3 bytes in UTF-8. Model strings are sequences of Unicode scalar values.
- Concurrency is not modelled: async interleaving, a file changing between `stat` and `readFile`, and lost updates between concurrent read-modify-write cycles. The model is sequential.
- Real filesystem semantics are not modelled: directories, permissions, cross-volume rename. The filesystem is a flat path→text map whose calls may fail. `ENOENT` is reported only for an absent path, never for a missing directory.
- The data file's directory prefix (`path.join(__dirname, '..', 'tasks.json')`) is not modelled. `getTasksFilePath` returns the constant `DataPath`.
- Error objects are modelled by message, `statusCode` and `details` only. The stack and the Error class are left out.
