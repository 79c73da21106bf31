/** Types shared by the components of the model. */
module Basics {

  datatype Option<+T> = None | Some(value: T)

  newtype uint8 = x: int | 0 <= x < 256
}
