/** Bytes, as both the digests of a12 and the wire format of a11 use them. */
module Bytes {
  type Byte = x: int | 0 <= x < 256
}
