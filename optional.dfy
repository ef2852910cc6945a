/** The optional value used for Go's nil-able results. */
module Optional {
  datatype Option<+T> = None | Some(value: T)
}
