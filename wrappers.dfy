/** Failure-carrying result types shared by every module. */
module Wrappers {

  datatype Option<+T> = None | Some(value: T)

  datatype Result<+T, +E> = Ok(value: T) | Err(error: E)

  /** The value in `o`, or `default` when `o` is None (Python's `dict.get(key, default)`). */
  function GetOr<T>(o: Option<T>, default: T): T
  {
    match o
    case Some(v) => v
    case None => default
  }
}
