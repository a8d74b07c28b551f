/** An optional value, for the source's `undefined`. */
module Optional {

  datatype Option<+T> = None | Some(value: T)
}
