/** The optional value the Go code expresses with a nil interface or pointer. */
module Maybe {

  datatype Option<+T> = None | Some(value: T)
}
