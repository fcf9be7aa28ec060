/** Optional values and failure-carrying results shared by the cleaning model. */
module Wrappers {

  /** A cell that may be missing (pandas NaN/None), or a search that may fail. */
  datatype Option<+T> = None | Some(value: T)

  /** A value, or the error that a step of the script would raise. */
  datatype Result<+T, +E> = Ok(value: T) | Err(error: E)

  /** Success without a value, or the error that a step would raise. */
  datatype Outcome<+E> = Pass | Fail(error: E)
}
