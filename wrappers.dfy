/** The optional-value type used across the model (a dict key that may be absent,
    an exception that may or may not be raised). */
module Wrappers {
  datatype Option<+T> = None | Some(value: T)
}
