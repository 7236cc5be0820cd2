/** The datatype used in place of a null or an absent result. */
module Wrappers {
  datatype Option<+T> = None | Some(value: T)
}
