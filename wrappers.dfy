/** Optional values: a missing cell of a table (pandas' NaN) is `None`. */
module Wrappers {

  datatype Option<+T> = None | Some(value: T)

  /** The outcome of a step that can raise: `Fail` carries why it stopped. */
  datatype Outcome<+E> = Pass | Fail(error: E)

  /** A value, or the reason it could not be produced. */
  datatype Result<+T, +E> = Ok(value: T) | Err(error: E)
}
