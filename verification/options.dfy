/** The optional value shared by the models: a SQL NULL, a Go nil, a missing error. */
module Options {
  datatype Option<+T> = None | Some(value: T)
}
