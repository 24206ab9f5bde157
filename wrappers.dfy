/** The conventional optional value, used for "no pending dismissal" and "no rule matched". */
module Wrappers {

  datatype Option<+T> = None | Some(value: T)
}
