/** Option and Result: the model's stand-ins for Java's null and for thrown exceptions. */
module Wrappers {
  datatype Option<T> = None | Some(value: T)
  datatype Result<T, E> = Ok(value: T) | Err(error: E)

  /** LocalDateTime / epoch values: opaque instants, passed in by the caller. */
  type Timestamp = int
}
