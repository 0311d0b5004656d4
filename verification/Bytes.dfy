/** Bytes, and text as its UTF-8 bytes. */
module Bytes {
  newtype byte = x: int | 0 <= x < 256

  type Text = seq<byte>
}
