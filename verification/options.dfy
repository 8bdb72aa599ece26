/** A value that may be absent: Go's nil results and Redis's missing keys. */
module Options {
  datatype Option<+T> = None | Some(value: T)
}
