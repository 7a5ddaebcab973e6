/** The error values the back end throws: its own `ErrorResponse`, the
    validation errors of the schemas and the duplicate-key error of a unique
    index, all as one record shaped like the object the Express error handler
    inspects. */
module Errors {
  import opened Util

  /** The `response` of an error raised by an HTTP client: its status and the
      parts of its data and body that the error handler looks at. An absent
      string field is "" and an absent `body.errors` is []. */
  datatype Upstream = Upstream(
    status: int,
    dataMessage: string,
    dataName: Option<seq<string>>,
    dataText: Option<seq<string>>,
    dataError: string,
    bodyErrors: seq<string>)

  /** Any thrown error, by the properties the error handler reads. `field` is ""
      when unset; `keyValue` holds the keys of a duplicate-key error's
      `keyValue` object. */
  datatype ErrorRecord = ErrorRecord(
    name: string,
    message: string,
    status: Option<int>,
    code: Option<int>,
    field: string,
    keyValue: Option<seq<string>>,
    response: Option<Upstream>)

  /** `new ErrorResponse(message, statusCode, field)`: an `Error` with a status
      and, when `field` is non-empty, a field. */
  function ErrorResponse(message: string, status: Option<int>, field: string): ErrorRecord {
    ErrorRecord("Error", message, status, None, field, None, None)
  }

  /** One failed schema path of a validation error. */
  datatype PathError = PathError(path: string, message: string)

  function DescribePaths(failures: seq<PathError>): (r: seq<string>)
    ensures |r| == |failures|
  {
    seq(|failures|, i requires 0 <= i < |failures| => failures[i].path + ": " + failures[i].message)
  }

  /** Mongoose's `ValidationError` for the failed paths of one document; `prefix`
      is "<Model> validation failed" on save and "Validation failed" on an update. */
  function ValidationError(prefix: string, failures: seq<PathError>): ErrorRecord {
    ErrorRecord("ValidationError", prefix + ": " + Join(DescribePaths(failures), ", "),
                None, None, "", None, None)
  }

  /** MongoDB's E11000 error when a unique index rejects a write, with the keys
      of the colliding value. */
  function DuplicateKeyError(keys: seq<string>): ErrorRecord {
    ErrorRecord("MongoServerError", "E11000 duplicate key error", None, Some(11000), "", Some(keys), None)
  }

  /** The outcome of a service call that returns a value or throws. */
  datatype Result<+T> = Success(value: T) | Failure(error: ErrorRecord) {
    predicate IsFailure() { Failure? }
    function PropagateFailure<U>(): Result<U> requires Failure? { Failure(error) }
    function Extract(): T requires Success? { value }
  }

  /** The outcome of a service call that returns nothing or throws. */
  datatype Outcome = Pass | Fail(error: ErrorRecord) {
    predicate IsFailure() { Fail? }
    function PropagateFailure(): Outcome requires Fail? { this }
  }
}
