/** The Option type used for calls that may raise and for fields that may be absent. */
module Wrappers {

  datatype Option<+T> = None | Some(value: T)
}
