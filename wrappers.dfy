/** Optional values, used for the error results of the driver's operations. */
module Wrappers {

  datatype Option<+T> = None | Some(value: T)
}
