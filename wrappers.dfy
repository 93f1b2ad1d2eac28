/** The optional value shared by the game and the reply model. */
module Wrappers {

  datatype Option<T> = None | Some(value: T)
}
