/** A value that may be absent: Go's nil slice, or "no write happened". */
module Options {
  datatype Option<+T> = None | Some(value: T)
}
