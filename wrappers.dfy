/** Optional values and value-or-error results, used for Go's nil pointers and
    (value, error) return pairs throughout the model. */
module Wrappers {

  /** A Go pointer or an optional field: `None` stands for nil. */
  datatype Option<+T> = None | Some(value: T)

  /** A Go `(value, error)` pair in which exactly one side is meaningful. */
  datatype Result<+T, +E> = Ok(value: T) | Err(error: E)
}
