/** Result type used where the Rust code panics on an explicit `assert!`. */
module Outcomes {
  datatype Result<+T, +E> = Ok(value: T) | Err(error: E)
}
