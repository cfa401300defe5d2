/** Failure-carrying wrappers shared by the search modules. */
module Options {

  /** A value that may be absent; stands for Python's `None`. */
  datatype Option<+T> = None | Some(value: T)

  /** Either a value or the error the operation raised. */
  datatype Result<+T, +E> = Ok(value: T) | Err(error: E)
}
