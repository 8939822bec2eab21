/** The optional value used wherever the C code uses a possibly-null reference
    to a value. */
module Wrappers {

  datatype Option<+T> = None | Some(value: T)
}
