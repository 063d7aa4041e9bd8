/** Value-or-error results, standing for the Python exceptions the modelled code raises. */
module Results {

  /** Either the value a call returns or the exception it raises. */
  datatype Result<+T, +E> = Ok(value: T) | Err(error: E)

  /** A value that may be absent. */
  datatype Option<+T> = None | Some(value: T)

  /** A call that returns nothing (Python's None) or raises. */
  datatype Outcome<+E> = Pass | Fail(error: E)
}
