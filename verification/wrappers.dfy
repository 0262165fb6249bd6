/** Absent-or-present values and success-or-error results used across the model. */
module Results {

  /** A value that may be missing, as the source's `T | null`. */
  datatype Option<+T> = None | Some(value: T)

  /** The outcome of an operation that can be refused with a typed error. */
  datatype Result<+T, +E> = Ok(value: T) | Err(error: E)
}
