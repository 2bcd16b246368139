/** The optional value used wherever the source returns "nothing" instead of a value. */
module Options {
  datatype Option<T> = None | Some(value: T)
}
