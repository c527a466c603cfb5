/** Rust's `Option`, used for a bin that may be out of range and for a cache
    file that may fail to decode. */
module Wrappers {

  datatype Option<+T> = None | Some(value: T)
}
