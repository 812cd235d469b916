/** Optional values, used for the error message a rendered form may carry. */
module Wrappers {

  /** Either no value or exactly one value of type T. */
  datatype Option<+T> = None | Some(value: T)
}
