/** A value that may be absent: a missing cached response, a missing reply. */
module Wrappers {
  datatype Option<+T> = None | Some(value: T)
}
