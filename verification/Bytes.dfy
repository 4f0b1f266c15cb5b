/** Octets, shared by the models that work on encoded data. */
module Bytes {
  type byte = b: int | 0 <= b < 256

  type Octets = seq<byte>
}
