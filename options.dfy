/** An optional value, shared by the cache lookups, the HTTP headers and
    the file reads. */
module Options {
  datatype Option<T> = None | Some(value: T)
}
