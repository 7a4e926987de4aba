/** Failure-compatible result types used by the decoders and the backend. */
module Wrappers {

  /** A value that may be absent: `Option` in the backend's own language. */
  datatype Option<+T> = None | Some(value: T)

  /** The outcome of an operation that returns nothing on success. */
  datatype Outcome<+E> = Pass | Fail(error: E)
}
