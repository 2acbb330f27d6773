/** The optional value used wherever the exporter may find nothing: a
    missing JSON field, a parse that fails, a response without a line. */
module Wrappers {

  datatype Option<+T> = None | Some(value: T)
}
