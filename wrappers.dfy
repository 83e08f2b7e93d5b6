/** Option, for the places where the Java code hands back a possibly null reference. */
module Wrappers {
  datatype Option<+T> = None | Some(value: T)
}
