/** Failure-carrying values shared by the other modules. */
module Results {

  /** A value that may be absent; pandas' NaN is modelled as `None`. */
  datatype Option<+T> = None | Some(value: T)

  /** The outcome of a step that may raise. */
  datatype Result<+T, +E> = Ok(value: T) | Err(error: E)
}
