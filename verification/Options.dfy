/** The two failure-carrying datatypes every other module shares. */
module Options {

  /** A value that may be absent (Python's None, Ruby's nil). */
  datatype Option<+T> = None | Some(value: T)

  /** The outcome of a step that may raise in the source. */
  datatype Result<+T, +E> = Ok(value: T) | Err(error: E)
}
