/** The optional value used throughout the model: `None` stands for the
    JavaScript `undefined` (or `null` where the source treats both alike). */
module Wrappers {

  datatype Option<T> = None | Some(value: T)
}
