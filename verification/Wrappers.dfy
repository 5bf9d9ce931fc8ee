/** A value that may be missing: JavaScript's `undefined`, C's null pointer. */
module Wrappers {
  datatype Option<+T> = None | Some(value: T)
}
