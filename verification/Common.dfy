/** Small datatypes shared by the models. */
module Common {
  /** A C pointer that may be NULL, or a value that may be missing. */
  datatype Option<+T> = None | Some(value: T)
}
