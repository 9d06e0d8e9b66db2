/** An optional value: a marker index that may be absent, a file that may not exist. */
module Options {
  datatype Option<T> = None | Some(value: T)
}
