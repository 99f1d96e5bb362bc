/** The optional value used wherever the source may produce nothing (an unknown move name, no winner yet). */
module Wrappers {
  datatype Option<T> = None | Some(value: T)
}
