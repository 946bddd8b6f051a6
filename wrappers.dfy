/** Optional values, used for Go's `(value, err)` and nil-pointer results. */
module Wrappers {

  datatype Option<+T> = None | Some(value: T)
}
