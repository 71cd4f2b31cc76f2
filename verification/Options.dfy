/** A value that may be absent: Python's None, C's null pointer. */
module Options {
  datatype Option<+T> = None | Some(value: T)
}
