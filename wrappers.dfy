/** Optional values, used where the source has `null`, `undefined` or an invalid `Date`. */
module Wrappers {

  datatype Option<+T> = None | Some(value: T)
}
