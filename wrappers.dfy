/** The absent-or-present value that stands for PHP's `null`-or-string results. */
module Wrappers {
  datatype Option<+T> = None | Some(value: T)
}
