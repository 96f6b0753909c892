/** A value that may be absent; Go's `nil` error and its "not found". */
module Optional {
  datatype Option<T> = None | Some(value: T)
}
