/** Failure-carrying values used along the log's error paths. */
module Results {

  /** A value that may be absent: a missing map entry, a payload that does not decode. */
  datatype Option<+T> = None | Some(value: T)

  /** Either a value or the error that prevented computing it. */
  datatype Result<+T, +E> = Ok(value: T) | Err(error: E)
}
