/** A value or nothing: null pointers and failed parses. */
module Options {
  datatype Option<T> = None | Some(value: T)
}
