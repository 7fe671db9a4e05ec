/** Stand-ins for Java's nullable references and thrown exceptions. */
module Wrappers {

  /** A Java reference that may be null: `None` is null. */
  datatype Option<T> = None | Some(value: T)

  /** The value of a call, or the exception it throws. */
  datatype Result<T, E> = Ok(value: T) | Err(error: E)
}
