/** Octets, shared by the byte-level protocols. */
module Bytes {
  type Byte = b: int | 0 <= b < 256
}
