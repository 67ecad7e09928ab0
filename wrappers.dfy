/** The optional value used wherever the viewer works with a nullable reference or a nullable struct. */
module Wrappers {
  datatype Option<+T> = None | Some(value: T)
}
