/** The optional-value datatype used throughout the model: a JSON document field, a query
    parameter or a header that may be absent, and the result of a lookup that may miss. */
module Wrappers {

  datatype Option<+T> = None | Some(value: T)
}
