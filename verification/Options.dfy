/** A value that may be missing: a nil pointer, an absent key, the result of a call that failed. */
module Options {

  datatype Option<+T> = None | Some(value: T)
}
