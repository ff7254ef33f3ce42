/** The Option type used where the crawler's Python code has an absent value. */
module Wrappers {

  datatype Option<+T> = None | Some(value: T)
}
