/** The optional value returned where the game's JavaScript returns `null` or a value. */
module Wrappers {

  datatype Option<+T> = None | Some(value: T)
}
