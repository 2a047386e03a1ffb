/** Option and Result: the two failure-carrying value types the model uses in
    place of Rust's `Option<T>` and `anyhow::Result<T>`. */
module Wrappers {

  datatype Option<+T> = None | Some(value: T)

  /** An `anyhow::Result`: the error payload is irrelevant to every decision
      the model makes, so an error carries no value. */
  datatype Result<+T> = Ok(value: T) | Err
}
