/** The optional value used for JSON fields, form fields and environment
    variables that may be absent. */
module Wrappers {

  datatype Option<+T> = None | Some(value: T)
}
