/** Optional values, for Rust's `Option` and for `Result`s whose error text no property needs. */
module Wrappers {
  datatype Option<+T> = None | Some(value: T)
}
