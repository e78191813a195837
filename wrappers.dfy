/**
 * An optional value: a name or type the host may leave out, a destination
 * node that may be missing, a filter list an account may not have.
 */
module Wrappers {
  datatype Option<T> = None | Some(value: T)
}
