/** What several parts share. */
module Basics {

  datatype Option<T> = None | Some(value: T)

  type Byte = n: nat | n < 256

  function Abs(n: int): nat { if n < 0 then -n else n }
}
