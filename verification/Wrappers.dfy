/** The optional value that stands for a possibly null pointer of the C code. */
module Wrappers {
  datatype Option<+T> = None | Some(value: T)
}
