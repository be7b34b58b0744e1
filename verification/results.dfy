/** Failure-carrying values shared by every component.

    Java signals failure by throwing; here every operation that can throw
    returns a `Result`, and the exception that would have been thrown becomes
    an `Error` value. */
module Results {

  /** A Java reference that may be null. */
  datatype Option<+T> = None | Some(value: T) {
    function GetOr(default: T): T {
      match this
      case Some(v) => v
      case None => default
    }
  }

  /** The exceptions the reviewer can raise, grouped by what the caller can learn from them. */
  datatype Error =
    /** IllegalStateException raised by configuration validation. */
    | ConfigError(message: string)
    /** NumberFormatException raised by Integer.parseInt on `input`. */
    | NumberFormat(input: string)
    /** IOException raised on a non-success HTTP status; the status travels with it. */
    | HttpFailure(context: string, code: int, reason: string)
    /** A response that lacks the shape the code reads (a Gson or null-pointer failure). */
    | Malformed(what: string)
    /** A failure reported by a remote party or its SDK (transport, authentication, not found). */
    | Remote(message: string)
    /** An IllegalFormatException from String.format. */
    | BadFormat(template: string)

  datatype Result<+T> = Ok(value: T) | Err(error: Error)

  /** The outcome of a call that returns nothing (a Java `void` method that may throw). */
  datatype Outcome = Pass | Fail(error: Error)
}
