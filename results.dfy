/** Success/failure values standing in for the exceptions the scripts raise. */
module Results {

  datatype Result<+T, +E> = Ok(value: T) | Err(error: E)

}
