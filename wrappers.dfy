/** Option and Result values, used where the Swift code has optionals and `throws`. */
module Wrappers {

  datatype Option<+T> = None | Some(value: T) {

    /** The wrapped value, or `default` when there is none (Swift's `??`). */
    function GetOr(default: T): T {
      match this
      case Some(v) => v
      case None => default
    }
  }

  /** The outcome of a Swift function that `throws`: either its value or the error thrown. */
  datatype Result<+R, +E> = Success(value: R) | Failure(error: E)
}
