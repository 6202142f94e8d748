/** Shared vocabulary: optional values and the outcome of an operation that may raise. */
module Common {

  datatype Option<+T> = None | Some(value: T)

  datatype Result<+T, +E> = Ok(value: T) | Err(error: E)
}
