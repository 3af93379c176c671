/**
  What several parts of the model share.
*/
module Basics {

  newtype Byte = x: int | 0 <= x < 256

  datatype Option<+T> = None | Some(value: T)
}
