/** The one optional type shared by the modules of the model: the source's `null`. */
module Options {
  datatype Option<+T> = None | Some(value: T)
}
