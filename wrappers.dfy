/** Ruby's `nil` next to a value: `args.shift` on an empty array, a keyword that was not given. */
module Wrappers {

  datatype Option<+T> = None | Some(value: T)
}
