/** Small failure-compatible wrapper used across the chat model. */
module Wrappers {

  /** A value that may be missing: Python's `None` or a failed lookup. */
  datatype Option<+T> = None | Some(value: T)
}
