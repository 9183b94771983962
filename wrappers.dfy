/** Option, Result and Outcome: the model's stand-ins for PHP's nullable values,
    thrown exceptions and void calls that may throw. */
module Wrappers {

  datatype Option<+T> = None | Some(value: T) {
    function GetOr(default: T): T {
      match this
      case Some(v) => v
      case None => default
    }
  }

  /** A computation that either yields a value or throws `error`. */
  datatype Result<+T, +E> = Ok(value: T) | Err(error: E)

  /** A computation without a value that either completes or throws `error`. */
  datatype Outcome<+E> = Pass | Fail(error: E)
}
