/** The optional value used throughout the model, for `std::optional`, null pointers and failed calls. */
module Wrappers {

  datatype Option<+T> = None | Some(value: T)
}
