/** Option and Result, the two failure-carrying shapes the snapshot code returns. */
module Wrappers {

  /** Rust's `Option<String>`: a queue eviction or an old snapshot, when there is one. */
  datatype Option<+T> = None | Some(value: T)

  /** Rust's `Result<T, E>`: a value, or the error that stopped the computation. */
  datatype Result<+T, +E> = Ok(value: T) | Err(error: E)
}
