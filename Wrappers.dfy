/** Optional values, standing for Go's `value, err` pairs and nil results. */
module Wrappers {
  datatype Option<+T> = None | Some(value: T)
}
