/** The "no value" sentinel that the reader returns where the source returns null. */
module Wrappers {

  datatype Option<T> = None | Some(value: T)
}
