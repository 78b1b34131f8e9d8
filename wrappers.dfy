/** The optional value used for "a result or nothing": Python's `None` versus an
    object, and an operation that may raise versus one that returned. */
module Wrappers {
  datatype Option<+T> = None | Some(value: T)
}
