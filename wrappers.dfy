/** The optional value used for keys that a JSON record may or may not carry. */
module Wrappers {

  datatype Option<+T> = None | Some(value: T)
}
