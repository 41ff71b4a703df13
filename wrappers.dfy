/** An optional value: the model's stand-in for Python's `None` and for a
    call that raised and was caught. */
module Wrappers {

  datatype Option<+T> = None | Some(value: T)
}
