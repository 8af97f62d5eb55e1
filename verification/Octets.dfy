/** The bytes of streams and messages. */
module Octets {

  type byte = x: int | 0 <= x < 256
}
