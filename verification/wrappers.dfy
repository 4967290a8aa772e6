/** The optional-value type, for the places where Python passes `None`. */
module Wrappers {

  /** A value that may be absent, as Python's `None` or a result that failed. */
  datatype Option<+T> = None | Some(value: T)
}
