/** Optional values and error-or-value results shared by the other modules. */
module Results {

  datatype Option<+T> = None | Some(value: T)

  /** A computation that either yields a value or fails with an error (Go's `(T, error)`). */
  datatype Result<+T, +E> = Ok(value: T) | Err(error: E)
}
