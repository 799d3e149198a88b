/** Optional values and success/failure results, standing in for the
    `null` returns and thrown errors of the game rules. */
module Wrappers {

  /** A value that may be absent (`null` in the rules). */
  datatype Option<+T> = None | Some(value: T)

  /** Either a computed value or the error the rules would throw. */
  datatype Result<+T, +E> = Success(value: T) | Failure(error: E)
}
