/** Stock optional-value datatype used by the record model. */
module Wrappers {
  datatype Option<T> = None | Some(value: T)
}
