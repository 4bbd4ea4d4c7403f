/** Failure-compatible result types shared by the whole model. */
module Wrappers {

  /** A value that may be absent (the source's `undefined`). */
  datatype Option<+T> = None | Some(value: T) {
    function GetOr(default: T): T {
      match this
      case Some(v) => v
      case None => default
    }
  }

  /** The outcome of an operation that can throw: `Err` carries the error message. */
  datatype Result<+T> = Ok(value: T) | Err(error: string)
}
