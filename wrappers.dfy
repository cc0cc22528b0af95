/** The optional value used for the pending entry, cache lookups and searches. */
module Wrappers {
  datatype Option<+T> = None | Some(value: T)
}
