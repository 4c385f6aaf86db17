/** Option and Result: JavaScript's `undefined`/`null` results and Go's `(value, error)` pairs. */
module Wrappers {

  /** `None` stands for an absent value (JavaScript `undefined`, a missing record key). */
  datatype Option<+T> = None | Some(value: T) {
    function GetOr(default: T): T {
      match this
      case Some(v) => v
      case None => default
    }
  }

  /** The outcome of an operation that can fail with an error value. */
  datatype Result<+R, +E> = Success(value: R) | Failure(error: E)
}
