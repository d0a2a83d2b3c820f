/** Types that all parts share. */
module Basics {

  datatype Option<T> = None | Some(value: T)

  type byte = b: nat | b < 256
}
