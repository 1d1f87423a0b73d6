/** Bit-level vocabulary shared by the datapath modules: 32-bit words, 16-bit
    instruction words, and the test "bit i of w is set". */
module Bits {

  /** A 32-bit data word (FIFO entries, scratch registers, OSR, pin buses). */
  type Word = bv32

  /** A 16-bit instruction word. */
  type InstrWord = bv16

  /** The position of one bit of a word, which is also the number of one
      GPIO pin: exactly the 32 values of a 5-bit field. */
  type BitIndex = bv5

  /** Number of bits in a data word, and so the number of GPIO pins. */
  const WordBits: nat := 32

  /** True when bit `i` of `w` is 1. */
  predicate Bit(w: Word, i: BitIndex)
  {
    (w >> (i as bv32)) & 1 == 1
  }

  /** 2 to the power `n`, the number of values of an `n`-bit register. */
  function Pow2(n: nat): (r: nat)
    ensures r >= 1
  {
    if n == 0 then 1 else 2 * Pow2(n - 1)
  }

  lemma BitOr(w: Word, a: Word, b: Word, i: BitIndex)
    requires w == a | b
    ensures Bit(w, i) <==> Bit(a, i) || Bit(b, i)
  {
  }

  lemma BitAnd(w: Word, a: Word, b: Word, i: BitIndex)
    requires w == a & b
    ensures Bit(w, i) <==> Bit(a, i) && Bit(b, i)
  {
  }

  /** One AND-OR step: bit i of `(a & m) | t`. */
  lemma BitAndOr(w: Word, a: Word, m: Word, t: Word, i: BitIndex)
    requires w == t | (a & m)
    ensures Bit(w, i) <==> (Bit(a, i) && Bit(m, i)) || Bit(t, i)
  {
  }

  lemma BitZero(i: BitIndex)
    ensures !Bit(0, i)
  {
  }

  /** Shifting a word left by one and putting `b` in bit 0 moves every bit
      up one place. */
  lemma BitShiftIn(w: Word, a: Word, b: bool, i: BitIndex)
    requires w == (a << 1) | (if b then 1 else 0)
    ensures Bit(w, i) <==> if i == 0 then b else Bit(a, i - 1)
  {
  }

  /** The numeric value of a bit index is one more than that of its
      predecessor. */
  lemma IndexPred(i: BitIndex)
    requires i > 0
    ensures (i - 1) as int == i as int - 1
  {
  }
}
