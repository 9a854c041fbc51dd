/** Optional values and refusals, as the store's operations produce them. */
module Wrappers {

  /** A value that may be absent: a dialog that was cancelled, a storage key never written. */
  datatype Option<+T> = None | Some(value: T) {

    /** The carried value, or `default` when there is none. */
    function GetOr(default: T): T {
      match this
      case Some(v) => v
      case None => default
    }
  }

  /** Either the new state of a collection or the notice that refused the change. */
  datatype Result<+R, +E> = Success(value: R) | Failure(error: E) {

    /** The new value, or `default` (the state left as it was) on a refusal. */
    function GetOr(default: R): R {
      match this
      case Success(v) => v
      case Failure(_) => default
    }
  }
}
