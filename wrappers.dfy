/** Optional values and results with an error, used wherever the source has
    `null`/`undefined`, a raised exception or a rejected promise. */
module Wrappers {

  datatype Option<+T> = None | Some(value: T) {
    function GetOr(default: T): T {
      match this
      case Some(v) => v
      case None => default
    }
  }

  datatype Result<+R, +E> = Success(value: R) | Failure(error: E)
}

/** Octets, as the byte strings of Python's `bytes` type. */
module Bytes {
  type byte = x: int | 0 <= x < 256
}
