/** An optional value: an attribute that may be absent, a verdict that may be empty. */
module Options {

  datatype Option<+T> = None | Some(value: T)
}
