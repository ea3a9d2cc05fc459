/** Optional values and error returns shared by the client and server models. */
module Results {

  /** Rust's `Option`: a value that may be absent. */
  datatype Option<+T> = None | Some(value: T)

  /** A value or the error that a JavaScript `throw` or a Rust error return carries. */
  datatype Result<+T, +E> = Ok(value: T) | Err(error: E)
}
