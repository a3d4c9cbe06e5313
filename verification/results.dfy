/** Small failure-carrying datatypes shared by every module. */
module Results {

  datatype Option<+T> = None | Some(value: T)

  /** What a call that may raise gives back: a value, or the error it raised. */
  datatype Result<+T, +E> = Ok(value: T) | Err(error: E)
}
