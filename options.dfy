/** An optional value: `None` where the source sends no such field. */
module Options {
  datatype Option<T> = None | Some(value: T)
}
