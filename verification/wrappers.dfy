/** Failure-carrying datatypes shared by the model: `Option` for JavaScript's
    `null`/`undefined`-or-value, `Result` for an operation that either succeeds
    or reports an error. */
module Wrappers {

  datatype Option<+T> = None | Some(value: T) {

    /** The value in `Some`, or `default` when `None` (JavaScript's `??`). */
    function GetOr(default: T): T {
      match this
      case Some(v) => v
      case None => default
    }
  }

  datatype Result<+R, +E> = Ok(value: R) | Err(error: E)
}
