/** The optional value used where the firmware passes a nullable pointer. */
module Wrappers {
  datatype Option<T> = None | Some(value: T)
}
