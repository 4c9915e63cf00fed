/** The optional value used where the editor keeps a nullable reference or a possibly absent result. */
module Wrappers {
  datatype Option<+T> = None | Some(value: T)
}
