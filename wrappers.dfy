/** Failure-compatible wrappers: Java's nullable references become Option,
    and an operation that can throw becomes a Result carrying the error. */
module Wrappers {

  datatype Option<+T> = None | Some(value: T) {
    function GetOr(default: T): T {
      match this
      case Some(v) => v
      case None => default
    }
  }

  datatype Result<+T, +E> = Ok(value: T) | Err(error: E)
}
