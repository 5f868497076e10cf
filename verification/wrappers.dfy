/** Absence as a value: the model's stand-in for a null reference. */
module Wrappers {

  datatype Option<+T> = None | Some(value: T)
}
