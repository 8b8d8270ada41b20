/** The optional-value type shared by the listing modules. */
module Wrappers {
  datatype Option<T> = None | Some(value: T)
}
