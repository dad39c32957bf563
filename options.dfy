/** The optional value used for Go's nil-able pointers. */
module Options {

  datatype Option<+T> = None | Some(value: T)
}
