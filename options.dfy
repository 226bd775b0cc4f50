/** The optional value used wherever the source returns an `Option`. */
module Options {
  datatype Option<+T> = None | Some(value: T)
}
