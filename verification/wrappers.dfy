/** Optional values and results with a failure value, used for Java's
    nullable references and for the exceptions the core throws. */
module Wrappers {

  /** A value that may be absent; `None` stands for Java's `null`. */
  datatype Option<+T> = None | Some(value: T)

  /** Either a value or the failure that was raised instead of it. */
  datatype Result<+T, +E> = Success(value: T) | Failure(error: E)
}
