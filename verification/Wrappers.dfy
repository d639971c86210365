/** A value that may be missing: the source's null pointers, absent results and empty handles. */
module Wrappers {
  datatype Option<+T> = None | Some(value: T)
}
