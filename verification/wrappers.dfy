/** Failure-compatible result types shared by the ledger modules. */
module Wrappers {

  /** A value that may be absent: the Python `None` of a lookup. */
  datatype Option<+T> = None | Some(value: T)

  /** The outcome of a ledger operation: a value, or the reason it was refused. */
  datatype Result<+T, +E> = Ok(value: T) | Err(error: E)
}
