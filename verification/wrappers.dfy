/** Failure-compatible wrappers used across the model: `Option` stands in for a
    Java reference that may be null, `Result` for a call that may throw. */
module Wrappers {

  datatype Option<+T> = None | Some(value: T)

  datatype Result<+R, +E> = Success(value: R) | Failure(error: E)

  /** The runtime exceptions the modelled Java code can raise on its inputs. */
  datatype Fault =
    | NullPointer        // a method called on a null reference
    | IndexOutOfBounds   // String.substring given an index past the end
}
