/** The optional value the game uses wherever JavaScript yields `null`. */
module Wrappers {
  datatype Option<+T> = None | Some(value: T)
}
