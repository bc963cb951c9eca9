/** The nullable results of the source (a lookup that may return null) as a datatype. */
module Options {
  datatype Option<T> = None | Some(value: T)
}
