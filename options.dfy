/** The optional value used for "found / not found" results throughout the model. */
module Options {

  datatype Option<+T> = None | Some(value: T)
}
