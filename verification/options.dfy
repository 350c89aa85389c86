/** The optional value the other modules share for Python's `None`. */
module Options {

  datatype Option<+T> = None | Some(value: T)
}
