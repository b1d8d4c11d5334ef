/** What the services throw: an `HttpError` carries one of four codes; every other
    exception (a Prisma validation, missing-record or unique-key error, a failed `BigInt`
    conversion)
    is a runtime error, which the sync reconcilers treat alike. */
module Errors {

  /** The `code` field of `HttpError`. */
  datatype ErrorCode = NotFound | Forbidden | Conflict | BadRequest

  /** Exceptions that are not an `HttpError`. */
  datatype RuntimeCause =
    | InvalidEnumValue    // Prisma rejects a string that is not a value of the column's enum
    | RecordNotFound      // Prisma `update` finds no row with the given id
    | BigIntSyntax        // `BigInt(s)` on a string that is not a decimal integer
    | BigIntType          // `BigInt(null)`
    | NullProperty        // reading a property of `null`
    | UniqueViolation     // an insert whose unique key already names a row

  datatype Error = HttpError(code: ErrorCode) | RuntimeError(cause: RuntimeCause)

  /** A value, or the exception that escaped instead. */
  datatype Result<+T> = Ok(value: T) | Err(error: Error) {
    predicate IsFailure() {
      Err?
    }

    function PropagateFailure<U>(): Result<U>
      requires Err?
    {
      Err(error)
    }

    function Extract(): T
      requires Ok?
    {
      value
    }
  }

  /** `error instanceof HttpError && error.code === "CONFLICT"`. */
  predicate IsConflict(e: Error) {
    e == HttpError(Conflict)
  }
}
