/** Optional values and error-carrying results shared by every model module. */
module Results {

  /** A value that may be absent. Used for NaN results (None) and for the
      abstract float parser (None = the text does not parse). */
  datatype Option<T> = None | Some(value: T)

  /** The outcome of an operation that can fail with an error value. */
  datatype Result<T, E> = Ok(value: T) | Err(error: E)
}
