/** Small shared vocabulary. */
module Prelude {
  datatype Option<+T> = None | Some(value: T)

  newtype byte = i: int | 0 <= i < 256
}
