/** Octets, as Java's byte[] holds them (read as unsigned values). */
module Bytes {
  type byte = x: int | 0 <= x < 256
}
