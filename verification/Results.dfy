/** Result shapes shared by the modules of this project. */
module Results {

  /** A value that may be absent: a failed lookup, a missing key, a nil pointer. */
  datatype Option<+T> = None | Some(value: T)

  /** The outcome of an operation that returns a value or an error. */
  datatype Result<+T, +E> = Ok(value: T) | Err(error: E)
}
