/** Small value types shared by the whole model. */
module Base {

  /** A byte as received by the transfer's write callback. */
  newtype byte = x: int | 0 <= x < 256

  datatype Option<+T> = None | Some(value: T)

  /** The outcome of a Python call that may raise: a value, or the exception it raised. */
  datatype Result<+T, +E> = Success(value: T) | Failure(error: E)
}
