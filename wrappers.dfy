/** Optional values, used for results of `parseInt` (None stands for NaN) and for `undefined`. */
module Wrappers {
  datatype Option<+T> = None | Some(value: T)
}
