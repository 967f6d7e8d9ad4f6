/** The optional value the model uses for "absent": a missing stored record,
    a missing field of a decoded record, a view not rendered yet. */
module Wrappers {

  datatype Option<+T> = None | Some(value: T)
}
