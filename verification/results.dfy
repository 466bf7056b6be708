/** The optional and fallible results shared by the store and the service layer. */
module Results {

  /** An optional value: Go's `(value, ok)` pairs and nil pointers. */
  datatype Option<+T> = None | Some(value: T)

  /** Either a value or an error: Go's `(value, error)` pairs. */
  datatype Result<+T, +E> = Ok(value: T) | Err(error: E)
}
