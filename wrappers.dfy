/** The usual optional value, for absent responses and messages. */
module Wrappers {
  datatype Option<+T> = None | Some(value: T)
}
