/** The `Option` type shared by the modules. */
module Options {

  datatype Option<+T> = None | Some(value: T)
}
