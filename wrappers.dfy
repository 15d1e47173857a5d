/** The optional value used where C code returns a null pointer for "not found". */
module Wrappers {
  datatype Option<+T> = None | Some(value: T)
}
