/** Option and Result: the model's stand-ins for a JavaScript `null` return and a thrown error. */
module Wrappers {

  /** A value that may be absent (`null` in the source). */
  datatype Option<+T> = None | Some(value: T)

  /** A value, or the error a function would have thrown. */
  datatype Result<+T, +E> = Success(value: T) | Failure(error: E)
}
