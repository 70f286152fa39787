/** Bytes as small integers, the way Python's `bytes` and `bytearray` index them. */
module Bytes {
  type Byte = b: int | 0 <= b < 256
}
