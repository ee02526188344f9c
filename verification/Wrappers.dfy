/** The Some/None type that stands for an optional value of the source. */
module Wrappers {
  datatype Option<+T> = None | Some(value: T)
}
