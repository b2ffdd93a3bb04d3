/** The bytes that files and encoded texts are made of. */
module Bytes {
  type byte = b: int | 0 <= b < 256
}
