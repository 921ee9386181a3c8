/** Values shared by every module of the model. */
module Base {

  /** A Go pointer, map lookup or two-result call that may have no value. */
  datatype Option<+T> = None | Some(value: T)

  /** A Go call that returns either a value or an error. */
  datatype Result<+T, +E> = Ok(value: T) | Err(error: E)

  /** Nanoseconds per second, Go's time.Second. */
  const SECOND := 1_000_000_000
}
