/** The optional value used for "the solver may return no solution". */
module Wrappers {

  datatype Option<+T> = None | Some(value: T)
}
