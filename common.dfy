/** Failure-carrying values shared by every module of the model. */
module Common {

  datatype Option<T> = None | Some(value: T)

  /** Rust's `Result`. */
  datatype Result<T, E> = Ok(value: T) | Err(error: E)

  /**
   * How a kernel routine ends: it returns a value, or it panics (an `expect` that
   * fails, a slice or array index out of range).  A panic halts the kernel, so no
   * caller ever sees the state it leaves behind.
   */
  datatype Outcome<T> = Returns(value: T) | Panics(message: string)
}
