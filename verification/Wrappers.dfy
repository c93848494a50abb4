/** Optional results: Rust's `Option`, and the reverts of the contracts. */
module Wrappers {
  datatype Option<T> = None | Some(value: T)
}
