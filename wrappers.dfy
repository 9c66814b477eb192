/** A value that may be absent: a form field that was not submitted. */
module Wrappers {
  datatype Option<+T> = None | Some(value: T)
}
