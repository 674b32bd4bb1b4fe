/** The optional and failing results the transforms compute. */
module Results {

  /** A value that may be absent, as a Python dict lookup that may miss. */
  datatype Option<+T> = None | Some(value: T)

  /** Either a computed value or the error the transform raises instead. */
  datatype Result<+R, +E> = Ok(value: R) | Err(error: E)
}
