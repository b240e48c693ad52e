/** Optional values: the model's stand-in for the source's `null` / `undefined`. */
module Wrappers {

  datatype Option<+T> = None | Some(value: T) {

    /** The wrapped value, or `default` when there is none (the source's `x ?? default`). */
    function GetOr(default: T): T {
      match this
      case Some(v) => v
      case None => default
    }
  }

  /** The outcome of a store call that can be refused. */
  datatype Result<+T, +E> = Success(value: T) | Failure(error: E)
}
