/** Bytes of a message, and the line ends among them. */
module Bytes {
  newtype byte = x: int | 0 <= x < 256

  const CR: byte := 13
  const LF: byte := 10
}
