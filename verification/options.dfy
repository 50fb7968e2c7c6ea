/** The optional-value type shared by the parsers of the model. */
module Options {

  datatype Option<+T> = None | Some(value: T)

}
