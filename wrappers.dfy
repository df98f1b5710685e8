/** Option and Result, the shapes used for JavaScript's `null`/`undefined`
    values and for thrown errors. */
module Wrappers {

  datatype Option<+T> = None | Some(value: T) {

    /** The `??` operator: the carried value, or `default` when absent. */
    function GetOr(default: T): T {
      match this
      case Some(v) => v
      case None => default
    }
  }

  datatype Result<+R, +E> = Success(value: R) | Failure(error: E)
}
