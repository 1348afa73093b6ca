/** Results that may be absent or may be errors: the source's `undefined` and its thrown exceptions. */
module Wrappers {

  datatype Option<+T> = None | Some(value: T) {
    /** The source's `x ?? default`. */
    function GetOr(default: T): T {
      match this
      case Some(v) => v
      case None => default
    }

    /** The source's `x ?? y` where `y` may be absent too. */
    function OrElse(other: Option<T>): Option<T> {
      match this
      case Some(_) => this
      case None => other
    }
  }

  datatype Result<+T, +E> = Success(value: T) | Failure(error: E)
}
