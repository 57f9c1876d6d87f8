/** The optional value used for Swift optionals and for partial parses. */
module Wrappers {
  datatype Option<+T> = None | Some(value: T)
}
