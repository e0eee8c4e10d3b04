/** The optional value used throughout the model: a missing header, a regex without a match. */
module Wrappers {

  datatype Option<+T> = None | Some(value: T)
}
