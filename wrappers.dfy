/** The optional-value datatype used for the keys an APOD record may lack
    and for Python values that may be None. */
module Wrappers {

  datatype Option<+T> = None | Some(value: T)
}
