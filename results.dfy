/** Success-or-error values, standing in for the exceptions the Python code raises. */
module Results {

  datatype Result<+T, +E> = Ok(value: T) | Err(error: E)
}
