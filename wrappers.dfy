/** The Option type stands for a nullable pointer: None is NULL. */
module Wrappers {
  datatype Option<+T> = None | Some(value: T)
}
