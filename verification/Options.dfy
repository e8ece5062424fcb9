/** The option type shared by the models: a result, or none where the program reports failure. */
module Options {
  datatype Option<+T> = None | Some(value: T)
}
