/** Optional values, for the nullable columns, keys and results of the source. */
module Options {
  datatype Option<+T> = None | Some(value: T)
}
