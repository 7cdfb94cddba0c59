/** The optional-value datatype the model uses for JavaScript's `undefined`
    and for an operation that may not produce a value. */
module Wrappers {

  datatype Option<+T> = None | Some(value: T)
}
