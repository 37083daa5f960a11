/** The Some/None type that stands for a nullable result throughout the model. */
module Options {
  datatype Option<+T> = None | Some(value: T)
}
