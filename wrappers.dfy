/** An optional value, standing for a value that Go code may leave nil. */
module Wrappers {
  datatype Option<+T> = None | Some(value: T)
}
