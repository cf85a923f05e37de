/** The optional value used for the application's unset fields and for
    a candidate that yields no score. */
module Wrappers {

  datatype Option<+T> = None | Some(value: T)
}
