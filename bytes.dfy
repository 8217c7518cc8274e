/** The unsigned 8-bit values (uint8_t) that SimpleSerial sends and receives. */
module Bytes {
  type byte = bv8

  /** FRAME_BYTE: the terminator of every SimpleSerial frame. */
  const FrameByte: byte := 0x00

  /** A small count stored in one byte, counted up from 0. */
  function CountByte(n: nat): byte
    requires n < 256
  {
    if n == 0 then 0 else CountByte(n - 1) + 1
  }

  /** The byte holds the count exactly. */
  lemma {:induction false} CountByteValue(n: nat)
    requires n < 256
    ensures CountByte(n) as int == n
  {
    if n > 0 {
      CountByteValue(n - 1);
    }
  }
}
