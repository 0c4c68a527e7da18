/** One byte, as sent, received and stored. */
module Bytes {

  type byte = x: int | 0 <= x < 256
}
