/** The optional value used where the C library stores a possibly-NULL pointer. */
module Wrappers {

  datatype Option<+T> = None | Some(value: T)
}
