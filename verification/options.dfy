/** An optional value, where the sources use a null pointer, a missing key or `None`. */
module Options {

  datatype Option<+T> = None | Some(value: T)
}
