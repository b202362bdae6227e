/** Failure-carrying wrappers used in place of null pointers and C++ exceptions. */
module Results {

  /** A value that may be missing (a `VDFNodePtr` that may be null). */
  datatype Option<+T> = None | Some(value: T)

  /** Either a value or the error that the C++ code would throw. */
  datatype Result<+T, +E> = Ok(value: T) | Err(error: E)
}
