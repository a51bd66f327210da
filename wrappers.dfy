/** The conventional optional value, used for "the file is absent", "no row matches"
    and for a numeric conversion that may fail. */
module Wrappers {

  datatype Option<+T> = None | Some(value: T)
}
