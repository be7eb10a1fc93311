/** The optional value used for the source's nullable references and null function pointers. */
module Wrappers {

  datatype Option<+T> = None | Some(value: T)
}
