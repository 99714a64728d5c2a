/** Octets and 16-bit words in network byte order. */
module Bytes {
  type Byte = x: int | 0 <= x < 256
  type Word = x: int | 0 <= x < 0x1_0000

  /** The word whose high octet is `hi` and whose low octet is `lo`. */
  function ToWord(hi: Byte, lo: Byte): Word { hi * 256 + lo }

  function High(w: Word): Byte { w / 256 }

  function Low(w: Word): Byte { w % 256 }
}
