/** The Option datatype used across the model for "absent" and "not a number". */
module Wrappers {

  datatype Option<+T> = None | Some(value: T)
}
