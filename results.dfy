/** Option and Result values standing for Go's `nil`-able values and its (value, error) returns. */
module Results {

  datatype Option<+T> = None | Some(value: T)

  datatype Result<+T, +E> = Ok(value: T) | Err(error: E)
}
