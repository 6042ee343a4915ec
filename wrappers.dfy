/** The Option type standing in for Kotlin's nullable results. */
module Wrappers {

  datatype Option<+T> = None | Some(value: T)
}
