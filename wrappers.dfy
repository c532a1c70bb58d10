/** The optional value used for "no table", "not a number" and "no such key". */
module Wrappers {
  datatype Option<+T> = None | Some(value: T)
}
