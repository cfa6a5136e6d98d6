/** The registry's "absent" results: Java's `null` becomes `None`. */
module Wrappers {
  datatype Option<+T> = None | Some(value: T)
}
