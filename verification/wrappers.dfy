/** The optional-value wrapper used across the model. */
module Wrappers {

  /** A value that may be absent: JavaScript's `null`/`undefined` results. */
  datatype Option<+T> = None | Some(value: T)
}
