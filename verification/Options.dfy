/** Values that may be absent: the source's NULL results. */
module Options {
  datatype Option<T> = None | Some(value: T)
}
