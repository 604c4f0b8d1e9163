/** The optional value used for lookups that may find nothing and loads that may fail. */
module Wrappers {
  datatype Option<+T> = None | Some(value: T)
}
