/** Option and Result values standing in for JavaScript's `null` and for a
    rejected promise or a thrown `Error`. */
module Wrappers {

  datatype Option<+T> = None | Some(value: T)

  /** `Failure` carries the message of the error that would have been thrown. */
  datatype Result<+T> = Success(value: T) | Failure(error: string)
}
