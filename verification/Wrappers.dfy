/** The optional value and the byte string shared by the modules. */
module Wrappers {
  datatype Option<+T> = None | Some(value: T)

  type byte = c: char | c as int < 256
  type Bytes = seq<byte>
}
