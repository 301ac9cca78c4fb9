/** The Option type stands for the C library's nullable pointers (NULL is None). */
module Wrappers {
  datatype Option<+T> = None | Some(value: T)
}
