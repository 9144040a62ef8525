/** The optional and fallible results used across the model. */
module Options {

  datatype Option<+T> = None | Some(value: T)

  datatype Outcome<+T, +E> = Success(value: T) | Failure(error: E)
}
