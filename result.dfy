/** Go's `(value, error)` return pair: `Ok` when the error is nil. */
module Results {

  datatype Result<+T> = Ok(value: T) | Err(message: string)

  datatype Option<+T> = None | Some(value: T)
}
