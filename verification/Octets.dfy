/** The bytes that files, sockets and encodings deal in. */
module Octets {
  type Byte = x: int | 0 <= x < 256
}
