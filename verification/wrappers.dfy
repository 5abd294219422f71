/** The absent-or-present result of a lookup (Python's `None` or a value). */
module Wrappers {

  datatype Option<+T> = None | Some(value: T)
}
