/** Small shared datatypes. */
module Wrappers {

  /** A value that may be absent: Python's `None`, or an unauthenticated request. */
  datatype Option<+T> = None | Some(value: T)
}
