/** The bytes of files and streams. */
module Octets {
  type byte = b: int | 0 <= b < 256
}
