/** The optional value that stands for a row or `null` returned by the store. */
module Wrappers {
  datatype Option<+T> = None | Some(value: T)
}
