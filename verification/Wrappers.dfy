/** The usual option type, for values the source may not have. */
module Wrappers {
  datatype Option<+T> = None | Some(value: T)
}
