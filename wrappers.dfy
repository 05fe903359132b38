/** Optional values: JavaScript's `undefined` (None) versus a present value. */
module Wrappers {
  datatype Option<+T> = None | Some(value: T)
}
