/** The optional-value datatype the rest of the model uses for JavaScript's
    `undefined`/`null` and for lookups that may find nothing. */
module Wrappers {

  datatype Option<+T> = None | Some(value: T)
}
