/** The optional value returned by a search or a parse that may find nothing. */
module Options {
  datatype Option<+T> = None | Some(value: T)
}
