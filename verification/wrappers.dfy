/** Absent values and error returns shared by every module of the model. */
module Wrappers {

  /** A value that may be absent: a pandas NaN / NaT or a left-join miss. */
  datatype Option<+T> = None | Some(value: T) {

    /** The value, or a default when absent (pandas `fillna`). */
    function GetOr(default: T): T {
      match this
      case Some(v) => v
      case None => default
    }
  }

  /** The outcome of an operation that may raise. */
  datatype Result<+R, +E> = Success(value: R) | Failure(error: E)
}
