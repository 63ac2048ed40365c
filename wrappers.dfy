/** Optional values, standing for the `null`/`undefined` cases of the application. */
module Wrappers {
  datatype Option<+T> = None | Some(value: T)
}
