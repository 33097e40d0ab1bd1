/**
 * The fixed-width integers of the C/Rust boundary and the `as` casts between
 * them. Dafny integers are unbounded, so every truncation, wrap-around and
 * sign extension the source relies on is written out here.
 *
 * A bit pattern (a `u32` of bitflags, a C `short` of event flags) is
 * represented by the set of the positions of its one bits: bitwise `&` is
 * set intersection, `|` is union, and a single-bit constant is one position.
 */
module Ints {

  newtype i32 = x: int | -0x8000_0000 <= x < 0x8000_0000
  newtype i64 = x: int | -0x8000_0000_0000_0000 <= x < 0x8000_0000_0000_0000
  newtype u64 = x: int | 0 <= x < 0x1_0000_0000_0000_0000

  /** A `u32` bit pattern: the positions (0 = least significant) of its one bits. */
  type Word = b: set<nat> | forall i :: i in b ==> i < 32

  /** A C `short` bit pattern, as libevent passes event flags. */
  type ShortWord = b: set<nat> | forall i :: i in b ==> i < 16

  /** Bit 15, the sign bit of a C `short`. */
  const SignBit: nat := 15

  /** The upper half of a `u32`, bits 16 to 31. */
  function UpperHalf(): (h: Word)
    ensures forall i :: i in h <==> 16 <= i < 32
  {
    {16, 17, 18, 19, 20, 21, 22, 23, 24, 25, 26, 27, 28, 29, 30, 31}
  }

  /** `b as c_short`: keeps the low 16 bits of a `u32` and drops the rest. */
  function ToCShort(b: Word): (s: ShortWord)
    ensures s <= b
    ensures forall i :: i in b && i < 16 ==> i in s
  {
    set i | i in b && i < 16
  }

  /**
   * `s as u32` for a C `short`: a sign extension, so bits 16 to 31 of the
   * result are all copies of the short's bit 15.
   */
  function SignExtend(s: ShortWord): (b: Word)
    ensures forall i :: i < 16 ==> (i in b <==> i in s)
    ensures forall i :: 16 <= i < 32 ==> (i in b <==> SignBit in s)
  {
    if SignBit in s then s + UpperHalf() else s
  }

  /** `x as i64` for a `u64`: two's-complement reinterpretation. */
  function U64ToI64(x: u64): (y: i64)
    ensures (x as int - y as int) % 0x1_0000_0000_0000_0000 == 0
    ensures y >= 0 <==> x < 0x8000_0000_0000_0000
  {
    if x < 0x8000_0000_0000_0000 then x as int as i64
    else (x as int - 0x1_0000_0000_0000_0000) as i64
  }

  /**
   * Whatever a word means to its sender, after the round trip through
   * `as c_short` and back through `as u32` it agrees with the original on
   * every bit of the low half.
   */
  lemma ShortRoundTrip(b: Word, mask: Word)
    requires forall i :: i in mask ==> i < 16
    ensures SignExtend(ToCShort(b)) * mask == b * mask
  {
  }
}
