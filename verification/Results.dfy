/** Optional values and results with an error, as the source's (value, ok) and (value, error). */
module Results {
  datatype Option<+T> = None | Some(value: T)

  datatype Result<+T, +E> = Ok(value: T) | Err(error: E)
}
