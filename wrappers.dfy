/** A value that may be absent: the model of a nullable reference or `undefined`. */
module Wrappers {

  datatype Option<+T> = None | Some(value: T)
}
