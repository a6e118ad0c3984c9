/** Option and Result values used across the model in place of Python's
    `None` and raised exceptions. */
module Wrappers {

  datatype Option<+T> = None | Some(value: T)

  datatype Result<+R, +E> = Success(value: R) | Failure(error: E)

  /** A dictionary lookup that distinguishes a missing key from a key whose
      value is `None`: `dict.get(k, default)` answers the default only for
      the former. */
  datatype Field<+T> = Missing | Null | Present(value: T)
}
