/** Vocabulary shared by the models. */
module Basics {

  datatype Option<+T> = None | Some(value: T)

  type Byte = b: int | 0 <= b < 256

  type Bytes = seq<Byte>

  /** The number little-endian bytes stand for. */
  function ValueOf(q: Bytes): nat {
    if q == [] then 0 else q[0] + 256 * ValueOf(q[1..])
  }
}
