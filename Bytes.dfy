/** Bytes, fixed-width byte strings and the small integer helpers the codecs share. */
module Bytes {
  /** A byte as stored in a Kotlin ByteArray, read as an unsigned value. */
  newtype byte = x: int | 0 <= x < 256

  /** A serialised public key (`keyToBin()`): 74 bytes for the libsodium keys IPv8 uses. */
  type KeyBin = s: seq<byte> | |s| == 74 witness seq(74, _ => 0 as byte)

  function Min(a: int, b: int): int { if a <= b then a else b }

  const LongMin := -0x8000_0000_0000_0000
  const LongMax := 0x7fff_ffff_ffff_ffff

  /** A Kotlin `Long`: a signed 64-bit integer. */
  type Long = x: int | LongMin <= x <= LongMax

  /** A mathematical integer reduced to a `Long` the way two's-complement addition wraps. */
  function WrapLong(x: int): (r: Long)
    ensures LongMin <= x <= LongMax ==> r == x
    ensures (r - x) % 0x1_0000_0000_0000_0000 == 0
  {
    (x - LongMin) % 0x1_0000_0000_0000_0000 + LongMin
  }

  /** Kotlin's `x / 2`: halves, truncating toward zero, so the quotient never outgrows the dividend. */
  function HalfTowardZero(a: int): (r: int)
    ensures a >= 0 ==> 0 <= r <= a && 2 * r <= a <= 2 * r + 1
    ensures a < 0 ==> a < r <= 0 && 2 * r - 1 <= a <= 2 * r
  {
    if a >= 0 then a / 2 else -((-a) / 2)
  }

  /** Kotlin's `%` on Int: truncating division, the remainder takes the sign of the dividend. */
  function KotlinRem(a: int, b: int): int
    requires b > 0
  {
    if a >= 0 then a % b else -((-a) % b)
  }
}
