/** The Option and Result datatypes shared by the tuner model:
    - Option<T> stands for a Python value that may be `None`;
    - Result<T, E> stands for a computation that either returns or raises. */
module Wrappers {

  datatype Option<+T> = None | Some(value: T)

  datatype Result<+T, +E> = Success(value: T) | Failure(error: E)
}
