/** The answer of a search or a request that may have none. */
module Options {
  datatype Option<+T> = None | Some(value: T)
}
