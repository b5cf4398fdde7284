/** The optional value used wherever the tracker may produce nothing (Python's None). */
module Options {
  datatype Option<+T> = None | Some(value: T)
}
