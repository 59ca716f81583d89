/**
 * The posit<8,2> storage format as this extension sees it: one raw byte.
 *
 * The arithmetic and the conversions of `sw::universal::posit<8,2>` are a
 * foreign library and are not modelled. What the model relies on is the
 * encoding fixed by the posit standard: the all-zero pattern is exact zero,
 * the pattern 1000_0000 is Not-a-Real (NaR), and the real values are ordered
 * like the bit patterns read as two's complement integers.
 */
module Posit8 {

  type Byte = bv8

  /** Number of bits of the format (`nbits` of `posit<8,2>`). */
  const NBits: nat := 8

  const Zero: Byte := 0x00
  const NaR: Byte := 0x80
  /** `posit8_2(1.0f)` and `posit8_2(-1)`: regime 10, exponent 00, no fraction, and its negation. */
  const One: Byte := 0x40
  const MinusOne: Byte := 0xC0
  const SignMask: Byte := 0x80

  /** The NaR test: `isnan` of the posit or of its float conversion. */
  predicate IsNaR(b: Byte) { b == NaR }

  /** `1 << i` as an unsigned char, for the eight bit positions. */
  function Mask(i: nat): (m: Byte)
    requires i < NBits
  {
    match i
    case 0 => 0x01
    case 1 => 0x02
    case 2 => 0x04
    case 3 => 0x08
    case 4 => 0x10
    case 5 => 0x20
    case 6 => 0x40
    case _ => 0x80
  }

  /** Bit i of a byte, least significant first. */
  predicate Bit(b: Byte, i: nat)
    requires i < NBits
  {
    b & Mask(i) != 0
  }

  /** The byte read as a two's complement integer (`int8_t`). */
  function Signed(b: Byte): (v: int)
    ensures -128 <= v < 128
  {
    if b < 0x80 then b as int else b as int - 256
  }

  /** The low byte of a wider integer: what `memcpy` of one byte out of a little-endian `long` keeps. */
  function LowByte(x: int): Byte
  {
    (x % 256) as Byte
  }

  /**
   * The single-precision float a posit converts to (`static_cast<float>`):
   * NaN for NaR, otherwise the real number `value(b)`. The valuation itself
   * belongs to the posit library and is a parameter of every operation that
   * needs it.
   */
  predicate FloatLess(value: Byte -> real, a: Byte, b: Byte)
  {
    !IsNaR(a) && !IsNaR(b) && value(a) < value(b)
  }

  predicate FloatGreater(value: Byte -> real, a: Byte, b: Byte)
  {
    FloatLess(value, b, a)
  }
}
