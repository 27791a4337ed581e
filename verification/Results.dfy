/** The outcomes of operations that may throw, and values that may be missing. */
module Results {
  datatype Result<+T> = Ok(value: T) | Error

  datatype Option<+T> = None | Some(value: T)
}
