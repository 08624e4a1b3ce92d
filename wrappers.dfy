/** The optional value used wherever the program can answer `undefined`. */
module Wrappers {
  datatype Option<+T> = None | Some(value: T)
}
