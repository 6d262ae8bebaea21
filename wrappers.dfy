/** Shared helper datatype: a value that may be absent (a DOM element that
    was not found, a data attribute that is not set). */
module Wrappers {
  datatype Option<+T> = None | Some(value: T)
}
