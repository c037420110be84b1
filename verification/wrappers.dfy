/** Optional values and handler results. */
module Wrappers {

  /** An optional value; `None` stands for a request field that is absent
      or whose numeric conversion yields NaN. */
  datatype Option<+T> = None | Some(value: T) {

    /** The value, or `default` when there is none. */
    function GetOr(default: T): T {
      match this
      case Some(v) => v
      case None => default
    }
  }

  /** The outcome of a handler: a payload or an error. */
  datatype Result<+R, +E> = Success(value: R) | Failure(error: E)
}
