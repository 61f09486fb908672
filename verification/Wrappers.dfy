/** A value that may be missing, as every other module uses it. */
module Wrappers {
  datatype Option<T> = None | Some(value: T)
}
