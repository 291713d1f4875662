/** A value that may be absent: JavaScript's `undefined` for a field that has not been set yet. */
module Optional {

  datatype Option<+T> = None | Some(value: T)
}
