/** Optional values, used for Go's `error` results (nil or an error) and for an absent envelope payload. */
module Wrappers {
  datatype Option<+T> = None | Some(value: T)
}
