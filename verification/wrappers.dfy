/** Optional values, for the Swift optionals (`ArucoNode?`) and for parsers that may fail. */
module Wrappers {

  datatype Option<+T> = None | Some(value: T)
}
