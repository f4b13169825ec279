/** The optional-value type shared by the other modules: a text field that
    parsed or did not, a material that is in the table or is not. */
module Wrappers {

  datatype Option<+T> = None | Some(value: T)
}
