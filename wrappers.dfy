/** Option, for the places where the scripts return None or stop with an exception. */
module Wrappers {
  datatype Option<+T> = None | Some(value: T)
}
