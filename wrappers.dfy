/** The optional value used for a DOM attribute that may be absent. */
module Wrappers {

  datatype Option<+T> = None | Some(value: T)
}
