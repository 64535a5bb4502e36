/** The option type used for C's NULL and error returns throughout the model. */
module Wrappers {

  datatype Option<+T> = None | Some(value: T)
}
