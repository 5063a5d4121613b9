/** The conventional optional value, used where the program has "no value". */
module Wrappers {

  datatype Option<+T> = None | Some(value: T)
}
