/** The option type that stands for a nullable pointer or a std::optional. */
module Wrappers {
  datatype Option<+T> = None | Some(value: T)
}
