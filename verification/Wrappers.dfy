/** What the source's optional values and error returns become. */
module Wrappers {
  datatype Option<+T> = None | Some(value: T)
}
