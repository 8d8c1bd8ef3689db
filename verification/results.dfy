/** Outcomes of operations that can raise. */
module Results {

  /** The Python exceptions the modelled code can raise. */
  datatype Error = IndexError | ValueError

  datatype Result<T> = Ok(value: T) | Err(error: Error)
}
