/** Failure-carrying values shared by the route models. */
module Wrappers {

  /** A value that may be missing (Python's `None`). */
  datatype Option<+T> = None | Some(value: T)

  /** The outcome of a step that either produces a value or raises. */
  datatype Result<+T, +E> = Ok(value: T) | Err(error: E)
}

/** What the web framework itself answers, shared by both routes. */
module Http {
  /** The detail of the response sent when a handler raises an unexpected exception. */
  const InternalErrorDetail := "Internal Server Error"
}
