/** The optional value that stands for Python's `None` and for a row that a query did not find. */
module Common {
  datatype Option<+T> = None | Some(value: T)
}
