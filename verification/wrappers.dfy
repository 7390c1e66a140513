/** The optional-value type used throughout the model: JavaScript's
    `undefined`/absent values and R2's `null` object become `None`. */
module Wrappers {

  datatype Option<+T> = None | Some(value: T)

}
