/**
  Hexadecimal floats (`runtime/floats.c`): the reader keeps 60 bits of the mantissa and
  rounds the rest to odd, so that the conversion to 53 bits rounds as if it had seen
  every digit; what the printer writes is read back exactly.
 */
module HexFloat {

  import opened Arithmetic

  // ---------------------------------------------------------------------- rounding

  const TWO53: nat := 0x20_0000_0000_0000
  const TWO56: nat := 0x100_0000_0000_0000
  const TWO60: nat := 0x1000_0000_0000_0000

  /** To a multiple of `u`, the nearest one, ties to the even multiple. */
  function RoundTo(x: nat, u: nat): nat
    requires u > 0
  {
    Nearest(x / u, x % u, u)
  }

  function Nearest(q: nat, r: nat, u: nat): nat {
    if 2 * r > u || (2 * r == u && q % 2 == 1) then (q + 1) * u else q * u
  }

  /** The weight of the last of the 53 bits of a number. */
  function Unit(x: nat): (u: nat)
    ensures u > 0
  {
    if x < TWO53 then 1 else 2 * Unit(x / 2)
  }

  /** The conversion of an integer to a double. */
  function Round53(x: nat): nat {
    RoundTo(x, Unit(x))
  }

  ghost predicate PowerOfTwo(u: nat)
    decreases u
  {
    u == 1 || (u > 1 && u % 2 == 0 && PowerOfTwo(u / 2))
  }

  lemma {:induction false} UnitBounds(x: nat)
    ensures PowerOfTwo(Unit(x)) && x < TWO53 * Unit(x)
    ensures x >= TWO52 ==> TWO52 * Unit(x) <= x
  {
    if x >= TWO53 {
      UnitBounds(x / 2);
    }
  }

  /** Only one unit leaves 53 bits. */
  lemma {:induction false} UnitUnique(x: nat, u: nat)
    requires PowerOfTwo(u) && TWO52 * u <= x < TWO53 * u
    ensures Unit(x) == u
    decreases x
  {
    if u > 1 {
      assert u == 2 * (u / 2);
      UnitUnique(x / 2, u / 2);
    }
  }

  lemma {:induction false} PowerProduct(u: nat, v: nat)
    requires PowerOfTwo(u) && PowerOfTwo(v)
    ensures PowerOfTwo(u * v)
    decreases u
  {
    if u == 1 {
      assert u * v == v;
    } else {
      PowerProduct(u / 2, v);
      Halves(u, v);
    }
  }

  lemma Halves(u: nat, v: nat)
    requires u % 2 == 0 && u > 1 && v > 0
    ensures u * v % 2 == 0 && u * v / 2 == u / 2 * v && u * v > 1
  {
    var w := u / 2;
    assert u == 2 * w;
    assert u * v == 2 * (w * v);
    assert w * v >= 1;
  }

  function Pow16(k: nat): (p: nat)
    ensures p > 0
  {
    if k == 0 then 1 else 16 * Pow16(k - 1)
  }

  lemma {:induction false} Pow16Power(k: nat)
    ensures PowerOfTwo(Pow16(k))
  {
    if k > 0 {
      Pow16Power(k - 1);
      var p := Pow16(k - 1);
      Doubled(p);
      Doubled(2 * p);
      Doubled(4 * p);
      Doubled(8 * p);
    }
  }

  lemma Doubled(p: nat)
    requires PowerOfTwo(p)
    ensures PowerOfTwo(2 * p)
  {
    assert 2 * p / 2 == p;
  }

  /** The low bit set: `m |= 1`. */
  function OrOne(m: nat): nat {
    if m % 2 == 0 then m + 1 else m
  }

  /** The first 60 bits, with the low bit set if any later bit is. */
  function ToOdd(top: nat, later: nat): nat {
    if later != 0 then OrOne(top) else top
  }

  lemma UnitOf60(top: nat)
    requires TWO56 <= top < TWO60
    ensures Unit(top) in {16, 32, 64, 128}
  {
    assert PowerOfTwo(2) && PowerOfTwo(4) && PowerOfTwo(8);
    assert PowerOfTwo(16) && PowerOfTwo(32) && PowerOfTwo(64) && PowerOfTwo(128);
    var u := if top < 2 * TWO56 then 16 else if top < 4 * TWO56 then 32 else if top < 8 * TWO56 then 64 else 128;
    UnitUnique(top, u);
  }

  /** The unit of a number is the unit of its first 60 bits, shifted. */
  lemma UnitShifted(top: nat, later: nat, p: nat)
    requires TWO56 <= top < TWO60 && PowerOfTwo(p) && later < p
    ensures Unit(top * p + later) == Unit(top) * p
    ensures Unit(ToOdd(top, later)) == Unit(top)
  {
    var u := Unit(top);
    UnitBounds(top);
    PowerProduct(u, p);
    assert top + 1 <= TWO53 * u;
    ShiftBounds(top, later, p, u);
    UnitUnique(top * p + later, u * p);
    OddBounds(top, later, u);
    UnitUnique(ToOdd(top, later), u);
  }

  lemma OddBounds(top: nat, later: nat, u: nat)
    requires TWO52 * u <= top < TWO53 * u
    ensures TWO52 * u <= ToOdd(top, later) < TWO53 * u
  {
    assert TWO53 * u % 2 == 0;
  }

  lemma ShiftBounds(top: nat, later: nat, p: nat, u: nat)
    requires later < p && TWO52 * u <= top && top + 1 <= TWO53 * u
    ensures TWO52 * (u * p) <= top * p + later < TWO53 * (u * p)
  {
    assert TWO52 * u * p <= top * p by { Monotone(TWO52 * u, top, p); }
    assert (top + 1) * p <= TWO53 * u * p by { Monotone(top + 1, TWO53 * u, p); }
    assert TWO52 * u * p == TWO52 * (u * p) && TWO53 * u * p == TWO53 * (u * p);
    assert (top + 1) * p == top * p + p;
  }

  /** The remainder lies on the same side of the half. */
  lemma SameSide(r: nat, later: nat, p: nat, half: nat)
    requires later < p && half % 2 == 0
    ensures r * p + later > half * p <==> ToOdd(r, later) > half
    ensures r * p + later == half * p <==> ToOdd(r, later) == half
  {
    if r < half {
      Successors(r, half, p);
    } else if r > half {
      Successors(half, r, p);
    }
  }

  lemma NearestShifted(q: nat, r: nat, later: nat, p: nat, u: nat)
    requires later < p && u in {16, 32, 64, 128}
    ensures Nearest(q, r * p + later, u * p) == Nearest(q, ToOdd(r, later), u) * p
  {
    var half := u / 2;
    SameSide(r, later, p, half);
    assert u * p == 2 * (half * p) by { Regroup(2, half, p); }
    Regroup(q, u, p);
    Regroup(q + 1, u, p);
  }

  /** The division of the whole number, from that of its first 60 bits. */
  lemma DivideShifted(top: nat, later: nat, p: nat, u: nat)
    requires later < p && u > 0
    ensures (top * p + later) / (u * p) == top / u && (top * p + later) % (u * p) == top % u * p + later
  {
    var q, r := top / u, top % u;
    assert top == q * u + r;
    assert top * p == q * u * p + r * p by { assert (q * u + r) * p == q * u * p + r * p; }
    Regroup(q, u, p);
    Successors(r, u, p);
    DivideUnique(top * p + later, u * p, q, r * p + later);
  }

  /** Rounding to odd and then to nearest is rounding to nearest: the quotient is the
      same, and so is the side of the half on which the remainder lies. */
  lemma RoundToOddThenNearest(top: nat, later: nat, p: nat)
    requires TWO56 <= top < TWO60 && PowerOfTwo(p) && later < p
    ensures Round53(top * p + later) == Round53(ToOdd(top, later)) * p
  {
    var u := Unit(top);
    UnitOf60(top);
    UnitShifted(top, later, p);
    DivideShifted(top, later, p, u);
    OddQuotient(top, later, u);
    NearestShifted(top / u, top % u, later, p, u);
  }

  lemma OddQuotient(top: nat, later: nat, u: nat)
    requires u in {16, 32, 64, 128}
    ensures ToOdd(top, later) / u == top / u && ToOdd(top, later) % u == ToOdd(top % u, later)
  {
    assert top % 2 == top % u % 2;
  }

  // ---------------------------------------------------------- collecting the digits

  /** The digits as a number. */
  function Value(ds: seq<nat>): nat {
    if ds == [] then 0 else 16 * Value(ds[..|ds| - 1]) + ds[|ds| - 1]
  }

  /** The mantissa (60 bits at most), the number of bits in it and after it. */
  datatype Acc = Acc(m: nat, mBits: nat, xBits: nat)

  function AddDigit(a: Acc, d: nat): Acc {
    if d == 0 && a.m == 0 then a
    else if a.mBits < 60 then Acc(16 * a.m + d, a.mBits + 4, a.xBits)
    else Acc(if d != 0 then OrOne(a.m) else a.m, a.mBits, a.xBits + 4)
  }

  function Accumulate(ds: seq<nat>): Acc {
    if ds == [] then Acc(0, 0, 0) else AddDigit(Accumulate(ds[..|ds| - 1]), ds[|ds| - 1])
  }

  predicate DigitsOk(ds: seq<nat>) {
    forall i :: 0 <= i < |ds| ==> ds[i] < 16
  }

  /** `top` is what was collected, before rounding to odd, and `later` what came after. */
  ghost predicate Collected(a: Acc, value: nat, top: nat, later: nat, k: nat, x: nat) {
    && a.mBits == 4 * k && k <= 15 && a.xBits == 4 * x && value == top * Pow16(x) + later && later < Pow16(x)
    && a.m == ToOdd(top, later) && top < Pow16(k) && (k > 0 ==> Pow16(k - 1) <= top) && (x > 0 ==> k == 15)
  }

  /** A digit that still fits, or a leading zero: nothing is left out. */
  lemma CollectMore(a: Acc, value: nat, top: nat, k: nat, d: nat)
    requires Collected(a, value, top, 0, k, 0) && d < 16 && k < 15
    ensures if d == 0 && top == 0 then Collected(AddDigit(a, d), 16 * value + d, top, 0, k, 0)
            else Collected(AddDigit(a, d), 16 * value + d, 16 * top + d, 0, k + 1, 0)
  {
    assert Pow16(0) == 1 && value == top;
  }

  /** A digit after the 60 bits. */
  lemma CollectLater(a: Acc, value: nat, top: nat, later: nat, x: nat, d: nat)
    requires Collected(a, value, top, later, 15, x) && d < 16
    ensures Collected(AddDigit(a, d), 16 * value + d, top, 16 * later + d, 15, x + 1)
  {
    assert Pow16(14) > 0 && top > 0 && a.m > 0;
    Regroup(16, top, Pow16(x));
    Regroup(top, 16, Pow16(x));
    assert 16 * top == top * 16;
    assert 16 * (top * Pow16(x)) == top * Pow16(x + 1);
  }

  lemma CollectDigit(a: Acc, value: nat, top: nat, later: nat, k: nat, x: nat, d: nat)
    returns (top': nat, later': nat, k': nat, x': nat)
    requires Collected(a, value, top, later, k, x) && d < 16
    ensures Collected(AddDigit(a, d), 16 * value + d, top', later', k', x')
  {
    if k < 15 {
      assert x == 0 && Pow16(0) == 1 && later == 0;
      CollectMore(a, value, top, k, d);
      if d == 0 && top == 0 {
        top', later', k', x' := top, 0, k, 0;
      } else {
        top', later', k', x' := 16 * top + d, 0, k + 1, 0;
      }
    } else {
      CollectLater(a, value, top, later, x, d);
      top', later', k', x' := top, 16 * later + d, 15, x + 1;
    }
  }

  lemma {:induction false} Collecting(ds: seq<nat>) returns (top: nat, later: nat, k: nat, x: nat)
    requires DigitsOk(ds)
    ensures Collected(Accumulate(ds), Value(ds), top, later, k, x)
    decreases |ds|
  {
    if ds == [] {
      top, later, k, x := 0, 0, 0, 0;
    } else {
      var init, d := ds[..|ds| - 1], ds[|ds| - 1];
      top, later, k, x := Collecting(init);
      top, later, k, x := CollectDigit(Accumulate(init), Value(init), top, later, k, x, d);
    }
  }

  lemma Pow16Values()
    ensures Pow16(13) == TWO52 && Pow16(14) == TWO56 && Pow16(15) == TWO60
  {
    assert Pow16(4) == 0x1_0000 && Pow16(8) == 0x1_0000_0000 && Pow16(12) == 0x1_0000_0000_0000;
  }

  /** For a digit string of any length: converting the collected mantissa rounds as
      converting the exact value of all digits would. */
  lemma RoundsAllDigits(ds: seq<nat>)
    requires DigitsOk(ds)
    ensures Accumulate(ds).xBits % 4 == 0
    ensures Round53(Accumulate(ds).m) * Pow16(Accumulate(ds).xBits / 4) == Round53(Value(ds))
    ensures Accumulate(ds).m == 0 <==> Value(ds) == 0
  {
    var top, later, k, x := Collecting(ds);
    CollectedRounds(Accumulate(ds), Value(ds), top, later, k, x);
  }

  lemma CollectedRounds(a: Acc, value: nat, top: nat, later: nat, k: nat, x: nat)
    requires Collected(a, value, top, later, k, x)
    ensures a.xBits % 4 == 0 && a.xBits / 4 == x
    ensures Round53(a.m) * Pow16(x) == Round53(value) && (a.m == 0 <==> value == 0)
  {
    if x == 0 {
      CollectedExact(a, value, top, later, k);
    } else {
      CollectedLong(a, value, top, later, x);
    }
  }

  lemma CollectedExact(a: Acc, value: nat, top: nat, later: nat, k: nat)
    requires Collected(a, value, top, later, k, 0)
    ensures a.m == value && Pow16(0) == 1
  {
  }

  lemma CollectedLong(a: Acc, value: nat, top: nat, later: nat, x: nat)
    requires Collected(a, value, top, later, 15, x)
    ensures Round53(a.m) * Pow16(x) == Round53(value) && a.m > 0 && value > 0
  {
    Pow16Values();
    Pow16Power(x);
    RoundToOddThenNearest(top, later, Pow16(x));
    Monotone(1, top, Pow16(x));
  }
}
