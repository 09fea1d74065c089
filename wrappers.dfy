/** Small shared datatypes. */
module Wrappers {

  /** An optional value. `None` stands for a field that JavaScript leaves `undefined`. */
  datatype Option<T> = None | Some(value: T)
}
