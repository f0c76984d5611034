/** Bytes, shared by the modules that work on raw text. */
module Bytes {
  type byte = b: int | 0 <= b < 256

  const NUL: byte := 0
  const TAB: byte := 9
  const LF: byte := 10
}
