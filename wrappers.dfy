/** Option and Result, the Rust `Option<T>` / `Result<T, E>` shapes the model returns. */
module Wrappers {

  datatype Option<+T> = None | Some(value: T)

  datatype Result<+T, +E> = Ok(value: T) | Err(error: E)
}
