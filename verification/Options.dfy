// The optional value used across the model, in place of the sources' null
// pointers, None values and false-with-an-out-parameter returns.
module Options {
  datatype Option<+T> = None | Some(value: T)
}
