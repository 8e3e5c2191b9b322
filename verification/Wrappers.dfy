/** A value that may be missing: a nil pointer, an absent entry, a failed lookup. */
module Wrappers {
  datatype Option<+T> = None | Some(value: T)
}
