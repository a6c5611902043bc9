/** A value that may be missing: a null pointer, an unset field, a step without a part. */
module Wrappers {
  datatype Option<+T> = None | Some(value: T)
}
