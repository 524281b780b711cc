/** The outcome of an operation that the source ends by throwing. */
module Results {

  datatype Result<+T, +E> = Ok(value: T) | Err(error: E)

  datatype Option<+T> = None | Some(value: T)
}
