/** The octet, as archives, digests and request bodies hold them. */
module Bytes {
  newtype byte = x: int | 0 <= x < 256
}
