/** The Option type used for the error paths of the model (an exception in
    the program becomes None). */
module Wrappers {
  datatype Option<+T> = None | Some(value: T)
}
