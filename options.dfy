/** The optional result of a move query: `None` stands for Python's `None`. */
module Options {

  datatype Option<+T> = None | Some(value: T)
}
