/** Octets of packets and headers. */
module Bytes {
  type byte = x: int | 0 <= x < 256
}
