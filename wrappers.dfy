/** The optional value used where the source returns a null pointer or a sentinel. */
module Wrappers {
  datatype Option<+T> = None | Some(value: T)
}
