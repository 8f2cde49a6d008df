/** Outcome types used in place of `null` and of thrown exceptions. */
module Results {

  /** `T | null`: a value that may be absent. */
  datatype Option<T> = None | Some(value: T)

  /** Either a value, or the error an operation would have thrown. */
  datatype Result<T, E> = Ok(value: T) | Err(error: E)
}
