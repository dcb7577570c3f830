/** Java's 32-bit `int` and the wrap-around of `++` on it. */
module JavaInt {

  const INT_MIN: int := -0x8000_0000
  const INT_MAX: int := 0x7fff_ffff
  const MODULUS: int := 0x1_0000_0000

  newtype int32 = x: int | -0x8000_0000 <= x < 0x8000_0000

  /** Two's-complement truncation of an unbounded integer to 32 bits. */
  function Wrap(x: int): (r: int32)
    ensures INT_MIN <= x <= INT_MAX ==> r as int == x
    ensures (x - r as int) % MODULUS == 0
  {
    var m := (x - INT_MIN) % MODULUS;
    assert x - (m + INT_MIN) == ((x - INT_MIN) / MODULUS) * MODULUS;
    (m + INT_MIN) as int32
  }

  /** The value of `i` after `i++` on a Java int. */
  function Increment(i: int32): (r: int32)
    ensures i as int < INT_MAX ==> r as int == i as int + 1
    ensures i as int == INT_MAX ==> r as int == INT_MIN
  {
    Wrap(i as int + 1)
  }

  /** Distinct residues: two integers closer than 2^32 truncate to different 32-bit values. */
  lemma WrapInjectiveBelowModulus(a: int, b: int)
    requires a < b < a + MODULUS
    ensures Wrap(a) != Wrap(b)
  {
  }

  /** Integers that differ by a multiple of 2^32 truncate to the same value. */
  lemma WrapCongruent(a: int, b: int)
    requires (a - b) % MODULUS == 0
    ensures Wrap(a) == Wrap(b)
  {
    var k := (a - b) / MODULUS;
    assert a == b + k * MODULUS;
    assert (a - INT_MIN) % MODULUS == (b - INT_MIN) % MODULUS by {
      assert a - INT_MIN == (b - INT_MIN) + k * MODULUS;
    }
  }

  /** Between Integer.MAX_VALUE and 2^32, truncation subtracts 2^32 and gives a negative value. */
  lemma WrapAboveMax(x: int)
    requires INT_MAX < x < MODULUS
    ensures Wrap(x) as int == x - MODULUS && Wrap(x) < 0
  {
    WrapCongruent(x, x - MODULUS);
  }
}
