/** The two result types every module here shares. */
module Outcomes {

  datatype Option<+T> = None | Some(value: T)

  /** A returned value, or the error the source raises in its place. */
  datatype Result<+T, +E> = Ok(value: T) | Err(error: E)
}
