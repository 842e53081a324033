/** The errors the task repository raises. In the JavaScript they are
    thrown `Error` objects; the HTTP layer answers with `err.statusCode`,
    or 500 when an error carries none (lab1/src/server.js:28). */
module RepositoryErrors {
  import opened Wrappers
  import opened TaskValidator
  import opened FileSystem

  datatype RepoError =
    /** The validator's own Error, which `writeTasks` lets through unchanged
        (it carries no status code). */
    | Invalid(schema: SchemaError)
    /** An Error the repository builds itself: message, `statusCode` and,
        for most of them, `details`. */
    | Failure(message: string, statusCode: nat, details: Option<string>)
    /** An error thrown by the filesystem, passed on unchanged. */
    | Io(code: ErrCode)
}
