/** The optional value used across the model for absent fields, unset
    environment variables and empty timer slots. */
module Wrappers {

  datatype Option<+T> = None | Some(value: T)
}
