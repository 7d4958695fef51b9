/** The optional value used throughout the model; `None` stands for a Java `null`. */
module Wrappers {
  datatype Option<+T> = None | Some(value: T)
}
