/** Optional values and results with an error, used wherever the Python code
    returns None or lets an exception escape. */
module Wrappers {

  datatype Option<+T> = None | Some(value: T) {
    /** `x or default`, `dict.get(key, default)` */
    function GetOr(default: T): T {
      match this
      case Some(v) => v
      case None => default
    }
  }

  /** Success carries the value; Failure carries the message of the exception. */
  datatype Result<+T, +E> = Success(value: T) | Failure(error: E)
}
