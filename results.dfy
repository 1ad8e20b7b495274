/** Optional values and error-carrying results shared by the model. */
module Results {

  /** A value that may be absent: an unparseable field, a cancelled dialog, a row not found. */
  datatype Option<+T> = None | Some(value: T)

  /** The outcome of a validation step: the accepted value, or why it was refused. */
  datatype Result<+T, +E> = Ok(value: T) | Err(error: E)
}
