/** A value that may be missing: a nullable column, a lookup without a hit. */
module Optional {
  datatype Option<+T> = None | Some(value: T)
}
