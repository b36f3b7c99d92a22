/** Optional values: stands for JavaScript's undefined/null on fields that may be missing. */
module Wrappers {
  datatype Option<+T> = None | Some(value: T)
}
