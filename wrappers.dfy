/** The optional value the sketch writes as a field that is either set or `null`. */
module Wrappers {
  datatype Option<+T> = None | Some(value: T)
}
