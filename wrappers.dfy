/** Option and Result, used for C's NULL results and error returns. */
module Wrappers {

  /** A value that may be absent: a C pointer that may be NULL. */
  datatype Option<+T> = None | Some(value: T)

  /** A value or the error that replaced it (a NULL return with a GError set). */
  datatype Result<+T, +E> = Ok(value: T) | Err(error: E)
}
