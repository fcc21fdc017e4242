/** Java's nullable return ("null means absent") as an explicit option. */
module Wrappers {

  datatype Option<T> = None | Some(value: T)
}
