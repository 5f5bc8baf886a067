/** Optional values and error-carrying results, used by every route handler. */
module Results {

  /** A value that may be absent: a SQL NULL, an undefined JSON field, a missing row. */
  datatype Option<+T> = None | Some(value: T)

  /** The outcome of a route handler: the new state, or the error it answers with. */
  datatype Result<+T, +E> = Ok(value: T) | Err(error: E)
}
