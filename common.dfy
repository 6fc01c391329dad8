/** Small failure-carrying wrappers shared by every module of the model. */
module Common {

  /** An optional value; `None` stands for a C# null or "no error". */
  datatype Option<T> = None | Some(value: T)

  /** The outcome of an operation that either returns a value or throws. */
  datatype Result<T, E> = Ok(value: T) | Err(error: E)
}
