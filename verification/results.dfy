/** Option and Result values used in place of pandas' missing cells and Python exceptions. */
module Results {

  /** A cell that may be missing (pandas NaN), or any optional value. */
  datatype Option<+T> = None | Some(value: T)

  /** The outcome of a step that can raise: `Err` stands for the exception. */
  datatype Result<+T, +E> = Ok(value: T) | Err(error: E)
}
