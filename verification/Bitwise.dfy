/** Exclusive or and shifts on words, as numbers. */
module Bitwise {

  import opened Arithmetic

  function Xor(a: nat, b: nat): nat {
    if a == 0 && b == 0 then 0 else (a % 2 + b % 2) % 2 + 2 * Xor(a / 2, b / 2)
  }

  /** The lowest bit, and the others. */
  lemma {:induction false} XorBits(a: nat, b: nat)
    ensures Xor(a, b) % 2 == (a % 2 + b % 2) % 2 && Xor(a, b) / 2 == Xor(a / 2, b / 2)
  {
    var low, rest := (a % 2 + b % 2) % 2, Xor(a / 2, b / 2);
    assert Xor(a, b) == low + 2 * rest;
  }

  lemma {:induction false} XorZero(a: nat)
    ensures Xor(a, 0) == a && Xor(0, a) == a
  {
    if a != 0 {
      XorZero(a / 2);
    }
  }

  lemma {:induction false} XorBound(a: nat, b: nat, k: nat)
    requires a < Pow2(k) && b < Pow2(k)
    ensures Xor(a, b) < Pow2(k)
    decreases k
  {
    if k > 0 {
      XorBound(a / 2, b / 2, k - 1);
    }
  }

  /** Exclusive or with the same word twice changes nothing. */
  lemma {:induction false} XorBack(a: nat, b: nat)
    ensures Xor(Xor(a, b), b) == a
    decreases a + b
  {
    if a != 0 || b != 0 {
      var x := Xor(a, b);
      XorBits(a, b);
      XorBits(x, b);
      XorBack(a / 2, b / 2);
      BackAgain(a, b, x, Xor(x, b));
    }
  }

  lemma BackAgain(a: nat, b: nat, x: nat, y: nat)
    requires x % 2 == (a % 2 + b % 2) % 2 && y % 2 == (x % 2 + b % 2) % 2 && y / 2 == a / 2
    ensures y == a
  {
  }

  lemma {:induction false} XorCommutes(a: nat, b: nat)
    ensures Xor(a, b) == Xor(b, a)
    decreases a + b
  {
    if a != 0 || b != 0 {
      XorCommutes(a / 2, b / 2);
    }
  }

  lemma {:induction false} XorInjective(a: nat, b: nat, c: nat)
    requires Xor(a, c) == Xor(b, c)
    ensures a == b
  {
    XorBack(a, c);
    XorBack(b, c);
  }

  lemma {:induction false} XorSame(a: nat)
    ensures Xor(a, a) == 0
  {
    if a != 0 {
      XorSame(a / 2);
    }
  }

  // ---------------------------------------------------------------------- shifts

  /** `a` without its lowest `k` bits. */
  ghost function Shifted(a: nat, k: nat): nat
    decreases k
  {
    if k == 0 then a else Shifted(a / 2, k - 1)
  }

  lemma {:induction false} ShiftedIs(a: nat, k: nat, p: nat)
    requires p == Pow2(k)
    ensures Shifted(a, k) == a / p
    decreases k
  {
    if k > 0 {
      ShiftedIs(a / 2, k - 1, Pow2(k - 1));
      HalfQuotient(a, Pow2(k - 1));
    }
  }

  lemma HalfQuotient(a: nat, p: nat)
    requires p > 0
    ensures a / (2 * p) == a / 2 / p
  {
    var h := a / 2;
    var q, r := h / p, h % p;
    Divides(h, p);
    Regroup(2, q, p);
    Regroup(q, 2, p);
    DivideUnique(a, 2 * p, q, 2 * r + a % 2);
  }

  /** A shift to the right goes through exclusive or. */
  lemma {:induction false} XorShifted(a: nat, b: nat, k: nat)
    ensures Shifted(Xor(a, b), k) == Xor(Shifted(a, k), Shifted(b, k))
    decreases k
  {
    if k > 0 {
      XorBits(a, b);
      XorShifted(a / 2, b / 2, k - 1);
    }
  }

  lemma {:induction false} ShiftedSmaller(a: nat, k: nat)
    ensures Shifted(a, k) <= a && (a > 0 && k > 0 ==> Shifted(a, k) < a)
    decreases k
  {
    if k > 0 {
      ShiftedSmaller(a / 2, k - 1);
    }
  }

  /** x ^= x >> k can be undone. */
  lemma {:induction false} XorShiftInjective(a: nat, b: nat, k: nat)
    requires k > 0 && Xor(a, Shifted(a, k)) == Xor(b, Shifted(b, k))
    ensures a == b
    decreases a + b
  {
    if a != 0 || b != 0 {
      var a', b' := Shifted(a, k), Shifted(b, k);
      XorShifted(a, a', k);
      XorShifted(b, b', k);
      ShiftedSmaller(a, k);
      ShiftedSmaller(b, k);
      XorShiftInjective(a', b', k);
      XorInjective(a, b, a');
    }
  }

  // -------------------------------------------------------------------- digits

  /** Exclusive or, by hexadecimal digits. */
  lemma {:induction false} XorDigit(a: nat, b: nat)
    ensures Xor(a, b) == 16 * Xor(a / 16, b / 16) + Xor(a % 16, b % 16)
  {
    XorHalves(a, b);
    XorHalves(a / 4, b / 4);
    XorHalves(a % 16, b % 16);
    assert a / 4 / 4 == a / 16 && b / 4 / 4 == b / 16;
    assert a % 16 / 4 == a / 4 % 4 && a % 16 % 4 == a % 4 && b % 16 / 4 == b / 4 % 4 && b % 16 % 4 == b % 4;
  }

  lemma {:induction false} XorHalves(a: nat, b: nat)
    ensures Xor(a, b) == 4 * Xor(a / 4, b / 4) + Xor(a % 4, b % 4)
  {
    XorBits(a, b);
    XorBits(a / 2, b / 2);
    PairXorIs(a % 4, b % 4);
    assert a / 2 / 2 == a / 4 && b / 2 / 2 == b / 4;
    LowPairs(a, b);
    TwoBits(Xor(a, b), Xor(a / 2, b / 2), Xor(a / 4, b / 4));
  }

  lemma LowPairs(a: nat, b: nat)
    ensures PairXor(a % 4, b % 4) == (a % 2 + b % 2) % 2 + 2 * ((a / 2 % 2 + b / 2 % 2) % 2)
  {
    LowBits(a);
    LowBits(b);
  }

  lemma LowBits(a: nat)
    ensures a % 4 % 2 == a % 2 && a % 4 / 2 == a / 2 % 2
  {
  }

  lemma TwoBits(x: nat, y: nat, z: nat)
    requires x / 2 == y && y / 2 == z
    ensures x == 4 * z + 2 * (y % 2) + x % 2
  {
  }

  /** Exclusive or of numbers below 4. */
  function PairXor(x: nat, y: nat): nat {
    (x % 2 + y % 2) % 2 + 2 * ((x / 2 + y / 2) % 2)
  }

  lemma {:induction false} PairXorIs(x: nat, y: nat)
    requires x < 4 && y < 4
    ensures Xor(x, y) == PairXor(x, y)
  {
    XorBits(x, y);
    XorBits(x / 2, y / 2);
    assert x / 2 / 2 == 0 && y / 2 / 2 == 0 && Xor(0, 0) == 0;
  }

  /** The bit `p`, and what is below it. */
  function BitXor(x: nat, y: nat, p: nat): nat {
    if (x >= p) == (y >= p) then 0 else p
  }

  function Below(x: nat, p: nat): nat {
    if x >= p then x - p else x
  }

  /** Exclusive or of two hexadecimal digits, from the highest bit down. */
  function DigitXor(x: nat, y: nat): nat {
    var x4, y4 := Below(x, 8), Below(y, 8);
    var x2, y2 := Below(x4, 4), Below(y4, 4);
    BitXor(x, y, 8) + BitXor(x4, y4, 4) + BitXor(x2, y2, 2) + BitXor(Below(x2, 2), Below(y2, 2), 1)
  }

  /** Taking the highest bit off takes it off the half. */
  lemma {:induction false} HalfBelow(x: nat, h: nat)
    requires h > 0 && x < 4 * h
    ensures Below(x, 2 * h) / 2 == Below(x / 2, h) && Below(x, 2 * h) % 2 == x % 2 && (x >= 2 * h <==> x / 2 >= h)
  {
    if x >= 2 * h {
      DivideUnique(x - 2 * h, 2, x / 2 - h, x % 2);
    }
  }

  lemma {:induction false} XorTop(x: nat, y: nat, h: nat)
    requires h > 0 && x < 4 * h && y < 4 * h
    requires Xor(x / 2, y / 2) == BitXor(x / 2, y / 2, h) + Xor(Below(x / 2, h), Below(y / 2, h))
    ensures Xor(x, y) == BitXor(x, y, 2 * h) + Xor(Below(x, 2 * h), Below(y, 2 * h))
  {
    HalfBelow(x, h);
    HalfBelow(y, h);
    XorBits(x, y);
    XorBits(Below(x, 2 * h), Below(y, 2 * h));
  }

  lemma {:induction false} XorTops(x: nat, y: nat, k: nat)
    requires x < 2 * Pow2(k) && y < 2 * Pow2(k)
    ensures Xor(x, y) == BitXor(x, y, Pow2(k)) + Xor(Below(x, Pow2(k)), Below(y, Pow2(k)))
  {
    if k == 0 {
      XorBits(x, y);
    } else {
      XorTops(x / 2, y / 2, k - 1);
      XorTop(x, y, Pow2(k - 1));
    }
  }

  lemma {:induction false} DigitXorIs(x: nat, y: nat)
    requires x < 16 && y < 16
    ensures Xor(x, y) == DigitXor(x, y)
  {
    var x4, y4 := Below(x, 8), Below(y, 8);
    var x2, y2 := Below(x4, 4), Below(y4, 4);
    XorTops(x, y, 3);
    XorTops(x4, y4, 2);
    XorTops(x2, y2, 1);
    XorTops(Below(x2, 2), Below(y2, 2), 0);
    assert Xor(0, 0) == 0;
  }

  /** One digit of an exclusive or after the others. */
  lemma {:induction false} XorNext(a: nat, b: nat, a0: nat, b0: nat, x: nat, y: nat)
    requires a == 16 * a0 + x && b == 16 * b0 + y && x < 16 && y < 16
    ensures Xor(a, b) == 16 * Xor(a0, b0) + DigitXor(x, y)
  {
    XorDigit(a, b);
    assert a / 16 == a0 && a % 16 == x && b / 16 == b0 && b % 16 == y;
    DigitXorIs(x, y);
  }

  /** A number of four hexadecimal digits. */
  function Hex(p: nat, q: nat, r: nat, s: nat): nat {
    0x1000 * p + 0x100 * q + 0x10 * r + s
  }

  lemma {:induction false} XorHex(p: nat, q: nat, r: nat, s: nat, p': nat, q': nat, r': nat, s': nat)
    requires p < 16 && q < 16 && r < 16 && s < 16 && p' < 16 && q' < 16 && r' < 16 && s' < 16
    ensures Xor(Hex(p, q, r, s), Hex(p', q', r', s')) ==
            Hex(DigitXor(p, p'), DigitXor(q, q'), DigitXor(r, r'), DigitXor(s, s'))
  {
    var a2, b2 := 16 * p + q, 16 * p' + q';
    var a3, b3 := 16 * a2 + r, 16 * b2 + r';
    DigitXorIs(p, p');
    XorNext(a2, b2, p, p', q, q');
    XorNext(a3, b3, a2, b2, r, r');
    XorNext(Hex(p, q, r, s), Hex(p', q', r', s'), a3, b3, s, s');
  }

  /** Exclusive or by halves of 16 bits. */
  lemma {:induction false} XorWide(a: nat, b: nat, hi: nat, lo: nat, hi': nat, lo': nat)
    requires a == 0x1_0000 * hi + lo && b == 0x1_0000 * hi' + lo' && lo < 0x1_0000 && lo' < 0x1_0000
    ensures Xor(a, b) == 0x1_0000 * Xor(hi, hi') + Xor(lo, lo')
  {
    XorByte(a, b);
    XorByte(a / 0x100, b / 0x100);
    XorByte(lo, lo');
    assert a / 0x100 / 0x100 == hi && b / 0x100 / 0x100 == hi';
    assert a / 0x100 % 0x100 == lo / 0x100 && b / 0x100 % 0x100 == lo' / 0x100;
    assert a % 0x100 == lo % 0x100 && b % 0x100 == lo' % 0x100;
  }

  lemma {:induction false} XorByte(a: nat, b: nat)
    ensures Xor(a, b) == 0x100 * Xor(a / 0x100, b / 0x100) + Xor(a % 0x100, b % 0x100)
  {
    XorDigit(a, b);
    XorDigit(a / 16, b / 16);
    XorDigit(a % 0x100, b % 0x100);
    assert a / 16 / 16 == a / 0x100 && b / 16 / 16 == b / 0x100;
    assert a % 0x100 / 16 == a / 16 % 16 && b % 0x100 / 16 == b / 16 % 16;
    assert a % 0x100 % 16 == a % 16 && b % 0x100 % 16 == b % 16;
  }

  /** A word of 32 bits by its eight hexadecimal digits, and their exclusive or. */
  datatype Digits = Digits(a: nat, b: nat, c: nat, d: nat, e: nat, f: nat, g: nat, h: nat)

  predicate DigitsOk(x: Digits) {
    x.a < 16 && x.b < 16 && x.c < 16 && x.d < 16 && x.e < 16 && x.f < 16 && x.g < 16 && x.h < 16
  }

  function WordOf(x: Digits): nat {
    0x1000_0000 * x.a + 0x100_0000 * x.b + 0x10_0000 * x.c + 0x1_0000 * x.d
    + 0x1000 * x.e + 0x100 * x.f + 0x10 * x.g + x.h
  }

  function DigitsXor(x: Digits, y: Digits): Digits {
    Digits(DigitXor(x.a, y.a), DigitXor(x.b, y.b), DigitXor(x.c, y.c), DigitXor(x.d, y.d),
           DigitXor(x.e, y.e), DigitXor(x.f, y.f), DigitXor(x.g, y.g), DigitXor(x.h, y.h))
  }

  lemma {:induction false} XorWords(x: Digits, y: Digits)
    requires DigitsOk(x) && DigitsOk(y)
    ensures Xor(WordOf(x), WordOf(y)) == WordOf(DigitsXor(x, y))
  {
    var hi, lo := Hex(x.a, x.b, x.c, x.d), Hex(x.e, x.f, x.g, x.h);
    var hi', lo' := Hex(y.a, y.b, y.c, y.d), Hex(y.e, y.f, y.g, y.h);
    XorWide(WordOf(x), WordOf(y), hi, lo, hi', lo');
    XorHex(x.a, x.b, x.c, x.d, y.a, y.b, y.c, y.d);
    XorHex(x.e, x.f, x.g, x.h, y.e, y.f, y.g, y.h);
  }

  /** `c` is the exclusive or of `a` and `b`, as their digits show. */
  predicate ByDigits(x: Digits, y: Digits, z: Digits, a: nat, b: nat, c: nat) {
    DigitsOk(x) && DigitsOk(y) && DigitsXor(x, y) == z && WordOf(x) == a && WordOf(y) == b && WordOf(z) == c
  }

  lemma XorByDigits(x: Digits, y: Digits, z: Digits, a: nat, b: nat, c: nat)
    requires ByDigits(x, y, z, a, b, c)
    ensures Xor(a, b) == c
  {
    XorWords(x, y);
  }
}
