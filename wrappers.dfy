/** Failure values of the product service: a `GeneralInternalException` carries an
    HTTP status and a message; operations either return a value or raise one. */
module Wrappers {

  datatype Option<+T> = None | Some(value: T) {
    function GetOr(default: T): T {
      match this
      case Some(v) => v
      case None => default
    }
  }

  /** The HTTP statuses the core raises (store failures, 500, are not modelled). */
  datatype HttpStatus = BadRequest | NotFound

  /** A `GeneralInternalException`: status and message. */
  datatype Error = Error(status: HttpStatus, message: string)

  /** The result of an operation that returns a value or throws. */
  datatype Result<+T> = Ok(value: T) | Err(error: Error)

  /** The result of a `void` operation that may throw. */
  datatype Outcome = Pass | Fail(error: Error)
}
