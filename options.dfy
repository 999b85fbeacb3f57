/** The optional-value and result wrappers used across the model. */
module Options {

  datatype Option<T> = None | Some(value: T)

  /** An operation that either produces a value or fails with an error. */
  datatype Result<T, E> = Ok(value: T) | Err(error: E)
}
