/** An optional value, as the source's own. */
module Options {
  datatype Option<T> = None | Some(value: T)
}
