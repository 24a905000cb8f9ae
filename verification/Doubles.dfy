/** What the eight bytes of a double stand for (IEEE 754, little-endian). */
module Doubles {

  import opened Arithmetic
  import opened MarshalFormat

  /** Its 64 bits as a number. */
  function Bits(d: Double): nat {
    Join(d[0], Join(d[1], Join(d[2], Join(d[3], Join(d[4], Join(d[5], Join(d[6], d[7])))))))
  }

  function Join(b: byte, rest: nat): nat {
    b + 0x100 * rest
  }

  const TWO63: nat := 0x8000_0000_0000_0000

  predicate Negative(d: Double) {
    Bits(d) >= TWO63
  }

  /** Eleven bits of exponent and 52 of mantissa. */
  function BiasedExponent(d: Double): nat {
    Bits(d) % TWO63 / TWO52
  }

  function Mantissa(d: Double): nat {
    Bits(d) % TWO52
  }

  predicate IsNaN(d: Double) {
    BiasedExponent(d) == 0x7FF && Mantissa(d) != 0
  }

  /** A number in multiples of 2^-1074: subnormal numbers have no hidden bit. An infinity
      comes out as a number beyond all finite ones. */
  function Scaled(exponent: nat, mantissa: nat): nat {
    if exponent == 0 then mantissa else (mantissa + TWO52) * Pow2(exponent - 1)
  }

  function NumberOf(d: Double): int {
    var n := Scaled(BiasedExponent(d), Mantissa(d));
    if Negative(d) then -(n as int) else n
  }

  lemma ScaledIncreases(e: nat, m: nat, e': nat, m': nat)
    requires m < TWO52 && m' < TWO52 && e * TWO52 + m < e' * TWO52 + m'
    ensures Scaled(e, m) < Scaled(e', m')
  {
    if e == e' {
      if e > 0 {
        Successors(m + TWO52, m' + TWO52, Pow2(e - 1));
      }
    } else {
      assert e < e';
      ScaledBelow(e, m);
      ScaledFrom(e', m');
      Pow2Monotone(e, e' - 1);
      Monotone(Pow2(e), Pow2(e' - 1), TWO52);
    }
  }

  lemma ScaledBelow(e: nat, m: nat)
    requires m < TWO52
    ensures Scaled(e, m) < Pow2(e) * TWO52
  {
    if e > 0 {
      var p := Pow2(e - 1);
      Successors(m + TWO52, 2 * TWO52, p);
      assert Pow2(e) == 2 * p && 2 * TWO52 * p == 2 * p * TWO52;
    }
  }

  lemma ScaledFrom(e: nat, m: nat)
    requires e > 0
    ensures Pow2(e - 1) * TWO52 <= Scaled(e, m)
  {
    Monotone(TWO52, m + TWO52, Pow2(e - 1));
  }
}
