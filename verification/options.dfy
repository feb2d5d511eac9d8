/** The optional-value datatype shared by the rest of the model. */
module Options {

  datatype Option<+T> = None | Some(value: T)
}
