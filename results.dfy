/** Option and Result values for the error paths of the finance manager. */
module Results {

  datatype Option<+T> = None | Some(value: T)

  /** Either a value or the typed failure that replaces a dialog box of the application. */
  datatype Result<+T, +E> = Ok(value: T) | Err(error: E)
}
