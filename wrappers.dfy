/** Optional values: the model's counterpart of JavaScript's `null`. */
module Wrappers {
  datatype Option<T> = None | Some(value: T)
}
