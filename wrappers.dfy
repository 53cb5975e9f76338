/** The optional value used for "no accepted location" and "no next snapshot". */
module Wrappers {
  datatype Option<+T> = None | Some(value: T)
}
