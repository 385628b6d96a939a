/** The optional value the model uses where the source has `undefined` or `null`. */
module Wrappers {
  datatype Option<T> = None | Some(value: T)
}
