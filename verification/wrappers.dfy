/** The Option and Result datatypes shared by the other modules. */
module Wrappers {

  datatype Option<+T> = None | Some(value: T)

  /** Either a value or the error the source raises instead of returning one. */
  datatype Result<+T, +E> = Ok(value: T) | Err(error: E)
}
