/** The optional value that stands for std::optional throughout the model. */
module Wrappers {
  datatype Option<+T> = None | Some(value: T)
}
