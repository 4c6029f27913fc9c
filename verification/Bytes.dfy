/** Bytes as numbers. */
module Bytes {
  type Byte = x: nat | x < 256
}
