/** Optional values and stage results shared by every stage of the pipeline. */
module Wrappers {

  /** An optional value: a cell that may be missing (NaN/NaT after coercion). */
  datatype Option<+T> = None | Some(value: T)

  /** The outcome of a stage: a value, or the error that stops the run. */
  datatype Result<+T, +E> = Ok(value: T) | Err(error: E)
}
