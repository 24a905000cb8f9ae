/**
  The end of caml_float_of_hex (`runtime/floats.c`): ldexp rounds again when the result is
  subnormal. The two roundings are one, except on numbers that the first one moves to the
  middle between two doubles.
 */
module HexSubnormal {

  import opened Arithmetic
  import opened Common
  import opened HexFloat
  import opened HexPrecision
  import opened HexString

  // ----------------------------------------------------------------- powers of two

  lemma {:induction false} Pow2Power(k: nat)
    ensures PowerOfTwo(Pow2(k))
  {
    if k > 0 {
      Pow2Power(k - 1);
      Doubled(Pow2(k - 1));
    }
  }

  lemma {:induction false} Pow16IsPow2(k: nat)
    ensures Pow16(k) == Pow2(4 * k)
  {
    if k > 0 {
      Pow16IsPow2(k - 1);
      assert Pow2(4 * k) == 2 * Pow2(4 * k - 1) == 4 * Pow2(4 * k - 2) == 8 * Pow2(4 * k - 3);
    }
  }

  /** Of two powers of two the smaller one divides the larger one. */
  lemma {:induction false} PowersDivide(u: nat, v: nat) returns (w: nat)
    requires PowerOfTwo(u) && PowerOfTwo(v) && u <= v
    ensures v == w * u && PowerOfTwo(w)
    decreases u
  {
    if u == 1 {
      w := v;
    } else {
      w := PowersDivide(u / 2, v / 2);
      assert u == 2 * (u / 2) && v == 2 * (v / 2);
      Regroup(w, 2, u / 2);
      Regroup(2, w, u / 2);
    }
  }

  // --------------------------------------------------------------- rounding twice

  /** `unit` divides half of `u`: the number `v` is `q` times `u`, `s` units and a rest `t`. */
  ghost predicate Parts(v: nat, unit: nat, u: nat, w: nat, q: nat, s: nat, t: nat) {
    u == 2 * (w * unit) && v == q * u + (s * unit + t) && t < unit && s < 2 * w
  }

  /** Rounding to units carries into the units. */
  function Carry(s: nat, t: nat, unit: nat): nat {
    if 2 * t > unit || (2 * t == unit && s % 2 == 1) then s + 1 else s
  }

  lemma RoundsToUnits(v: nat, unit: nat, u: nat, w: nat, q: nat, s: nat, t: nat)
    requires Parts(v, unit, u, w, q, s, t)
    ensures RoundTo(v, unit) == q * u + Carry(s, t, unit) * unit
  {
    var n := 2 * (q * w) + s;
    EvenUnits(unit, w, q);
    Distribute(2 * (q * w), s, unit);
    RoundsParts(v, unit, n, t);
    NearestCarry(q * w, s, t, unit);
  }

  lemma NearestCarry(half: nat, s: nat, t: nat, unit: nat)
    ensures Nearest(2 * half + s, t, unit) == 2 * half * unit + Carry(s, t, unit) * unit
  {
    Distribute(2 * half, s, unit);
    Distribute(2 * half + s, 1, unit);
    Distribute(s, 1, unit);
  }

  lemma EvenUnits(unit: nat, w: nat, q: nat)
    ensures q * (2 * (w * unit)) == 2 * (q * w) * unit
  {
    Regroup(q, 2, w * unit);
    Regroup(2 * q, w, unit);
    Regroup(2, q, w);
    assert q * 2 == 2 * q;
  }

  /** The second rounding goes by the units alone. */
  lemma RoundsUnits(unit: nat, u: nat, w: nat, q: nat, c: nat)
    requires u == 2 * (w * unit) && unit > 0 && c <= 2 * w && w > 0
    ensures RoundTo(q * u + c * unit, u) == if c > w || (c == w && q % 2 == 1) then (q + 1) * u else q * u
  {
    Distribute(q, 1, u);
    Regroup(2, w, unit);
    assert w * unit > 0 by { Monotone(1, w, unit); }
    if c == 2 * w {
      DivideUnique((q + 1) * u, u, q + 1, 0);
    } else {
      Successors(c, 2 * w, unit);
      DivideUnique(q * u + c * unit, u, q, c * unit);
      if c < w {
        Successors(c, w, unit);
      } else if c > w {
        Successors(w, c, unit);
      }
    }
  }

  /** One rounding goes by the units and the rest. */
  lemma RoundsOnce(v: nat, unit: nat, u: nat, w: nat, q: nat, s: nat, t: nat)
    requires Parts(v, unit, u, w, q, s, t)
    ensures RoundTo(v, u) == if s > w || (s == w && (t > 0 || q % 2 == 1)) then (q + 1) * u else q * u
  {
    SplitRest(v, unit, u, w, q, s, t);
    if s < w {
      Successors(s, w, unit);
    } else if s > w {
      Successors(w, s, unit);
    }
  }

  lemma SplitRest(v: nat, unit: nat, u: nat, w: nat, q: nat, s: nat, t: nat)
    requires Parts(v, unit, u, w, q, s, t)
    ensures v / u == q && v % u == s * unit + t < u
  {
    Regroup(2, w, unit);
    Successors(s, 2 * w, unit);
    DivideUnique(v, u, q, s * unit + t);
  }

  /** The first rounding takes `v` to the middle between two multiples of `u`, where it was
      not, and the even one of them is on the other side of the middle. */
  ghost predicate WrongSide(v: nat, unit: nat, u: nat)
    requires u > 0
  {
    var q, r, half := v / u, v % u, u / 2;
    && unit < u && r != half && 2 * Distance(r, half) <= unit
    && (2 * Distance(r, half) == unit ==> 4 * unit <= u)
    && (r < half <==> q % 2 == 1)
  }

  /** The same by parts. */
  lemma WrongParts(v: nat, unit: nat, u: nat, w: nat, q: nat, s: nat, t: nat)
    requires Parts(v, unit, u, w, q, s, t) && w > 0
    ensures WrongSide(v, unit, u) <==>
      || (s == w && 0 < t && (2 * t < unit || (2 * t == unit && w > 1)) && q % 2 == 0)
      || (s + 1 == w && (2 * t > unit || (2 * t == unit && w > 1)) && q % 2 == 1)
  {
    SplitRest(v, unit, u, w, q, s, t);
    Monotone(1, w, unit);
    if w > 1 {
      Monotone(2, w, unit);
    }
    if s + 1 < w {
      Monotone(s + 2, w, unit);
      Distribute(s, 2, unit);
    } else if s + 1 == w {
      Distribute(s, 1, unit);
    } else if s > w {
      Successors(w, s, unit);
    }
  }

  /** Rounding first to units and then to a larger power of two. */
  lemma TwiceExact(v: nat, unit: nat, u: nat)
    requires PowerOfTwo(unit) && PowerOfTwo(u) && unit < u
    ensures RoundTo(RoundTo(v, unit), u) == RoundTo(v, u) <==> !WrongSide(v, unit, u)
  {
    var w, q, s, t := TakeApart(v, unit, u);
    RoundsToUnits(v, unit, u, w, q, s, t);
    RoundsUnits(unit, u, w, q, Carry(s, t, unit));
    RoundsOnce(v, unit, u, w, q, s, t);
    WrongParts(v, unit, u, w, q, s, t);
    Compare(unit, u, w, q, s, t, RoundTo(RoundTo(v, unit), u), RoundTo(v, u), WrongSide(v, unit, u));
  }

  /** `two` roundings, and `one`. */
  lemma Compare(unit: nat, u: nat, w: nat, q: nat, s: nat, t: nat, two: nat, one: nat, wrong: bool)
    requires u > 0 && t < unit && (w == 1 || (w > 0 && w % 2 == 0))
    requires var c := Carry(s, t, unit); two == if c > w || (c == w && q % 2 == 1) then (q + 1) * u else q * u
    requires one == if s > w || (s == w && (t > 0 || q % 2 == 1)) then (q + 1) * u else q * u
    requires wrong <==>
      || (s == w && 0 < t && (2 * t < unit || (2 * t == unit && w > 1)) && q % 2 == 0)
      || (s + 1 == w && (2 * t > unit || (2 * t == unit && w > 1)) && q % 2 == 1)
    ensures two == one <==> !wrong
  {
    Distribute(q, 1, u);
  }

  lemma TakeApart(v: nat, unit: nat, u: nat) returns (w: nat, q: nat, s: nat, t: nat)
    requires PowerOfTwo(unit) && PowerOfTwo(u) && unit < u
    ensures Parts(v, unit, u, w, q, s, t) && (w == 1 || (w > 0 && w % 2 == 0))
  {
    w := HalfOver(unit, u);
    var r;
    q, r := Divided(v, u);
    s, t := Divided(r, unit);
    Regroup(2, w, unit);
    if s >= 2 * w {
      Monotone(2 * w, s, unit);
    }
  }

  lemma Divided(v: nat, u: nat) returns (q: nat, r: nat)
    requires u > 0
    ensures v == q * u + r && r < u
  {
    q, r := v / u, v % u;
    Divides(v, u);
  }

  /** Half of a power of two in terms of a smaller one. */
  lemma HalfOver(unit: nat, u: nat) returns (w: nat)
    requires PowerOfTwo(unit) && PowerOfTwo(u) && unit < u
    ensures u == 2 * (w * unit) && (w == 1 || (w > 0 && w % 2 == 0))
  {
    var twice := PowersDivide(unit, u);
    w := twice / 2;
    assert twice > 1 && twice == 2 * w;
    Regroup(2, w, unit);
  }

  // ------------------------------------------------------------------- doubles

  /** In multiples of 2^-1074, the smallest positive double. */
  datatype Double = Infinite | Multiple(n: nat)

  /** 2^1024 is too large. */
  const TOO_LARGE: nat := Pow2(2098)

  function Capped(n: nat): Double {
    if n >= TOO_LARGE then Infinite else Multiple(n)
  }

  /** The multiple of 2^-1074 nearest to f * 2^e, ties to even. */
  function Multiples(f: nat, e: int): nat {
    if e >= -1074 then f * Pow2(e + 1074) else Units(f, Pow2(-1074 - e))
  }

  /** ldexp, of a double with an integer for its value. */
  function Ldexp(f: nat, e: int): Double {
    Capped(Multiples(f, e))
  }

  /** The distance of the doubles around v * 2^e, in terms of 2^e. */
  function Spacing(v: nat, e: int): (u: nat)
    ensures u > 0
  {
    if e >= -1074 || Unit(v) >= Pow2(-1074 - e) then Unit(v) else Pow2(-1074 - e)
  }

  /** The double nearest to v * 2^e, ties to even. */
  function NearestDouble(v: nat, e: int): Double {
    Ldexp(RoundTo(v, Spacing(v, e)), e)
  }

  /** The digits of v * 2^e make it round to the wrong side. */
  ghost predicate Misread(v: nat, e: int) {
    e < -1074 && WrongSide(v, Unit(v), Pow2(-1074 - e))
  }

  lemma UnitsOfMultiple(n: nat, u: nat)
    requires u > 0
    ensures RoundTo(n * u, u) == n * u && Units(n * u, u) == n
  {
    DivideUnique(n * u, u, n, 0);
  }

  lemma SameUnits(a: nat, b: nat, u: nat)
    requires u > 0
    ensures Units(a, u) == Units(b, u) <==> RoundTo(a, u) == RoundTo(b, u)
  {
    var m, n := Units(a, u), Units(b, u);
    if m < n {
      Successors(m, n, u);
    } else if n < m {
      Successors(n, m, u);
    }
  }

  lemma RoundTwice(v: nat, u: nat)
    requires u > 0
    ensures RoundTo(RoundTo(v, u), u) == RoundTo(v, u)
  {
    UnitsOfMultiple(Units(v, u), u);
  }

  /** ldexp of the mantissa rounded to 53 bits is the nearest double, if and only if the
      digits do not make it round to the wrong side. */
  lemma LdexpExact(v: nat, e: int)
    ensures Multiples(Round53(v), e) == Multiples(RoundTo(v, Spacing(v, e)), e) <==> !Misread(v, e)
  {
    if e < -1074 {
      var u := Pow2(-1074 - e);
      Pow2Power(-1074 - e);
      UnitBounds(v);
      if Unit(v) < u {
        TwiceExact(v, Unit(v), u);
        RoundTwice(v, u);
        SameUnits(Round53(v), RoundTo(v, u), u);
      }
    }
  }

  // ---------------------------------------------------- the exponent of the mantissa

  lemma RoundScaled(f: nat, u: nat, p: nat)
    requires u > 0 && p > 0
    ensures u * p > 0 && Units(f * p, u * p) == Units(f, u)
  {
    var q, r := Divided(f, u);
    DivideUnique(f, u, q, r);
    Monotone(1, p, u);
    ScaledParts(f, u, p, q, r);
    DivideUnique(f * p, u * p, q, r * p);
    SameHalf(r, u, p);
  }

  lemma ScaledParts(f: nat, u: nat, p: nat, q: nat, r: nat)
    requires f == q * u + r && r < u && p > 0
    ensures f * p == q * (u * p) + r * p && r * p < u * p
  {
    Distribute(q * u, r, p);
    Regroup(q, u, p);
    Successors(r, u, p);
  }

  lemma SameHalf(r: nat, u: nat, p: nat)
    requires p > 0
    ensures (2 * (r * p) > u * p <==> 2 * r > u) && (2 * (r * p) == u * p <==> 2 * r == u)
  {
    Regroup(2, r, p);
    if 2 * r < u {
      Successors(2 * r, u, p);
    } else if u < 2 * r {
      Successors(u, 2 * r, p);
    }
  }

  /** Bits may go from the exponent to the mantissa. */
  lemma ShiftExponent(f: nat, e: int, x: nat)
    ensures Multiples(f, e + x) == Multiples(f * Pow2(x), e)
  {
    if e >= -1074 {
      ShiftFactor(f, x, e + 1074);
    } else if x >= -1074 - e {
      ShiftPast(f, x, -1074 - e);
    } else {
      Pow2Sum(-1074 - e - x, x);
      RoundScaled(f, Pow2(-1074 - e - x), Pow2(x));
    }
  }

  lemma ShiftFactor(f: nat, x: nat, k: nat)
    ensures f * Pow2(x + k) == f * Pow2(x) * Pow2(k)
  {
    Pow2Sum(x, k);
    Regroup(f, Pow2(x), Pow2(k));
  }

  lemma ShiftPast(f: nat, x: nat, s: nat)
    requires s <= x
    ensures Units(f * Pow2(x), Pow2(s)) == f * Pow2(x - s)
  {
    ShiftFactor(f, x - s, s);
    UnitsOfMultiple(f * Pow2(x - s), Pow2(s));
  }

  const TWO61: nat := 0x2000_0000_0000_0000

  lemma SmallPowers()
    ensures Pow2(61) == TWO61
  {
    Pow16IsPow2(15);
    Pow16Values();
  }

  /** An exponent that does not fit an int makes no difference. */
  lemma SaturationHarmless(f: nat, e: int)
    requires f <= TWO61
    ensures Ldexp(f, Saturated(e)) == Ldexp(f, e)
  {
    if e > INT_MAX && f > 0 {
      Overflows(f, INT_MAX);
      Overflows(f, e);
    } else if e < INT_MIN {
      Vanishes(f, INT_MIN);
      Vanishes(f, e);
    }
  }

  lemma Overflows(f: nat, e: int)
    requires f > 0 && e >= 1024
    ensures Ldexp(f, e) == Infinite
  {
    Pow2Monotone(2098, e + 1074);
    Monotone(1, f, Pow2(e + 1074));
  }

  lemma Vanishes(f: nat, e: int)
    requires f <= TWO61 && e < -1200
    ensures Multiples(f, e) == 0
  {
    var u := Pow2(-1074 - e);
    SmallPowers();
    Pow2Monotone(63, -1074 - e);
    assert Pow2(63) == 4 * Pow2(61);
    DivideUnique(f, u, 0, f);
  }

  // -------------------------------------------------------------------- reading

  /** The mantissa that is converted has 60 bits at most. */
  lemma SmallMantissa(ds: seq<nat>)
    requires DigitsOk(ds)
    ensures Round53(Accumulate(ds).m) <= TWO61
  {
    var top, later, k, x := Collecting(ds);
    Pow16Values();
    Pow16Monotone(k, 15);
    AtMostTwice(Accumulate(ds).m);
  }

  lemma {:induction false} Pow16Monotone(a: nat, b: nat)
    requires a <= b
    ensures Pow16(a) <= Pow16(b)
    decreases b - a
  {
    if a < b {
      Pow16Monotone(a, b - 1);
    }
  }

  lemma AtMostTwice(m: nat)
    ensures Round53(m) <= 2 * m
  {
    UnitBounds(m);
    if m >= TWO52 {
      var u := Unit(m);
      Divides(m, u);
      Distribute(m / u, 1, u);
      Monotone(1, TWO52, u);
    }
  }

  /** The bits after the point. */
  function After(scan: Scan): int
    requires scan.Scan?
  {
    if scan.point.Some? then 4 * (|scan.digits| - scan.point.value) else 0
  }

  /** The whole of caml_float_of_hex: a string that it reads as finite gives the double
      nearest to the exact value of its digits, if and only if they do not make it round to
      the wrong side. */
  lemma {:induction false} ReadExact(s: string)
    requires Expected(ScanFrom(s, [], None)).Finite?
    ensures var scan := ScanFrom(s, [], None);
      var r := Expected(scan);
      && scan.Scan? && Exponent(scan).Some?
      && var v, e := Value(scan.digits), Exponent(scan).value - After(scan);
      Ldexp(r.mantissa, r.exponent) == NearestDouble(v, e) <==> !Misread(v, e)
  {
    var scan := ScanFrom(s, [], None);
    var r := Expected(scan);
    FiniteIsRounded(s);
    ScanDigits(s, [], None);
    SmallMantissa(scan.digits);
    ReadNumbers(r.mantissa, Accumulate(scan.digits).xBits, Value(scan.digits), Exponent(scan).value - After(scan));
  }

  /** A mantissa `f` with `x` bits left out, and the value and exponent that it stands for. */
  lemma {:induction false} ReadNumbers(f: nat, x: nat, v: nat, e: int)
    requires f <= TWO61 && x % 4 == 0 && f * Pow16(x / 4) == Round53(v)
    ensures Ldexp(f, Saturated(e + x)) == NearestDouble(v, e) <==> !Misread(v, e)
  {
    SaturationHarmless(f, e + x);
    Pow16IsPow2(x / 4);
    ShiftExponent(f, e, x);
    LdexpExact(v, e);
    if Misread(v, e) {
      MisreadSmall(v, e);
    }
  }

  /** caml_float_of_hex, with ldexp at its end. */
  method ReadDouble(s: string) returns (r: Option<Double>)
    ensures r == None <==> Expected(ScanFrom(s, [], None)) == Bad
    ensures Expected(ScanFrom(s, [], None)) == Zero ==> r == Some(Multiple(0))
    ensures Expected(ScanFrom(s, [], None)) == Huge ==> r == Some(Infinite)
    ensures var scan := ScanFrom(s, [], None);
      Expected(scan).Finite? ==>
        && scan.Scan? && Exponent(scan).Some?
        && var v, e := Value(scan.digits), Exponent(scan).value - After(scan);
        r == Some(NearestDouble(v, e)) <==> !Misread(v, e)
  {
    var outcome := FloatOfHex(s);
    match outcome
    case Bad => r := None;
    case Zero => r := Some(Multiple(0));
    case Huge => r := Some(Infinite);
    case Finite(f, e) =>
      ReadExact(s);
      r := Some(Ldexp(f, e));
  }

  /** What is misread is far from too large. */
  lemma MisreadSmall(v: nat, e: int)
    requires Misread(v, e)
    ensures Multiples(Round53(v), e) < TOO_LARGE && Multiples(RoundTo(v, Spacing(v, e)), e) < TOO_LARGE
  {
    var u := Pow2(-1074 - e);
    UnitBounds(v);
    Monotone(Unit(v), u, TWO53);
    assert v < TWO53 * u;
    AtMostTwice(v);
    FewUnits(Round53(v), u, 2 * TWO53);
    FewUnits(v, u, 2 * TWO53);
    UnitsOfMultiple(Units(v, u), u);
    SmallPowers();
    Pow2Monotone(61, 2098);
  }

  lemma FewUnits(v: nat, u: nat, n: nat)
    requires u > 0 && v < n * u
    ensures Units(v, u) <= n
  {
    Divides(v, u);
    if v / u >= n {
      Monotone(n, v / u, u);
    }
  }

  /** What is printed without a precision is read as the same double, subnormal or not:
      m * 2^(e - 52). */
  lemma {:induction false} PrintedReadsSame(m: nat, e: int)
    requires m < TWO53 && -1022 <= e <= 1023
    ensures var r := Expected(ScanFrom(PrintHex(m, e), [], None));
      r.Finite? && Ldexp(r.mantissa, r.exponent) == Ldexp(m, e - 52) == NearestDouble(m, e - 52)
  {
    HexRoundTrip(m, e);
    var r, n := Expected(ScanFrom(PrintHex(m, e), [], None)), |PrintedDigits(m)|;
    SameNumber(r.mantissa, m, e - 52, 14 - n);
  }

  lemma {:induction false} SameNumber(f: nat, m: nat, e: int, k: nat)
    requires f * Pow16(k) == m < TWO53 && e >= -1074
    ensures Ldexp(f, e + 4 * k) == Ldexp(m, e) == NearestDouble(m, e)
  {
    Pow16IsPow2(k);
    ShiftExponent(f, e, 4 * k);
    ExactInteger(m);
  }

  // ------------------------------------------------------------------ a misreading

  /** 1, 7 and `n` times f. */
  function NearDigits(n: nat): seq<nat> {
    [1, 7] + seq(n, _ => 15)
  }

  /** 0x17fffffffffffff, one less than 24 * 2^52. */
  const NEAR_MIDDLE: nat := 0x17F_FFFF_FFFF_FFFF

  lemma {:induction false} NearValue(n: nat)
    ensures DigitsOk(NearDigits(n)) && Value(NearDigits(n)) == 24 * Pow16(n) - 1
  {
    var ds := NearDigits(n);
    if n == 0 {
      assert ds == [1, 7] && ds[..1] == [1] && [1][..0] == [];
      assert Value([1]) == 1;
    } else {
      NearValue(n - 1);
      assert ds[..|ds| - 1] == NearDigits(n - 1) && ds[|ds| - 1] == 15;
    }
  }

  lemma NearMisread()
    ensures Unit(NEAR_MIDDLE) == 16 && Pow2(56) == TWO56 && Misread(NEAR_MIDDLE, -1130)
  {
    assert PowerOfTwo(2) && PowerOfTwo(4) && PowerOfTwo(8) && PowerOfTwo(16);
    UnitUnique(NEAR_MIDDLE, 16);
    Pow16IsPow2(14);
    Pow16Values();
    DivideUnique(NEAR_MIDDLE, TWO56, 1, TWO56 / 2 - 1);
  }

  /** The first rounding goes to the middle, the second one to the even side of it. */
  lemma NearRounded()
    ensures Round53(NEAR_MIDDLE) == 24 * TWO52 && Multiples(24 * TWO52, -1130) == 2
    ensures Multiples(RoundTo(NEAR_MIDDLE, Spacing(NEAR_MIDDLE, -1130)), -1130) == 1
  {
    NearMisread();
    DivideUnique(NEAR_MIDDLE, 16, NEAR_MIDDLE / 16, 15);
    DivideUnique(24 * TWO52, TWO56, 1, TWO56 / 2);
    DivideUnique(NEAR_MIDDLE, TWO56, 1, TWO56 / 2 - 1);
    UnitsOfMultiple(1, TWO56);
  }

  lemma NearText()
    ensures DigitsOk(NearDigits(13))
    ensures PrintDigits(NearDigits(13), "p" + FormatExponent(-1074)) == "1.7fffffffffffffp-1074"
  {
    NearValue(13);
    NearExponent();
    NearFraction();
    var text := PrintDigits(NearDigits(13), "p-1074");
    assert text == [DigitChar(1)] + ("." + Chars(NearDigits(13)[1..])) + "p-1074";
    NearLiteral();
  }

  lemma NearLiteral()
    ensures [DigitChar(1)] + ("." + "7fffffffffffff") + "p-1074" == "1.7fffffffffffffp-1074"
  {
  }

  lemma NearExponent()
    ensures "p" + FormatExponent(-1074) == "p-1074"
  {
    assert DecimalChars(1) == "1" && DecimalChars(10) == "10" && DecimalChars(107) == "107";
    assert DecimalChars(1074) == "1074";
  }

  lemma NearFraction()
    ensures DigitsOk(NearDigits(13)[1..]) && Chars(NearDigits(13)[1..]) == "7fffffffffffff"
  {
    var ds := NearDigits(13)[1..];
    assert ds[0] == 7 && forall i :: 1 <= i < 14 ==> ds[i] == 15;
  }

  /** 0x1.7fffffffffffffp-1074 is less than one and a half times the smallest double, which
      is the nearest one; it is read as twice the smallest double. */
  lemma ReadCounterexample()
    ensures var scan := ScanFrom("1.7fffffffffffffp-1074", [], None);
      var r := Expected(scan);
      && r.Finite? && Ldexp(r.mantissa, r.exponent) == Multiple(2)
      && scan == Scan(NearDigits(13), Some(1), Some(FormatExponent(-1074)))
      && Value(scan.digits) == NEAR_MIDDLE && NearestDouble(NEAR_MIDDLE, -1130) == Multiple(1)
  {
    NearText();
    NearScan();
    NearRounded();
    assert TOO_LARGE > 2 by { Pow2Monotone(2, 2098); }
  }

  lemma NearScan()
    ensures DigitsOk(NearDigits(13)) && Value(NearDigits(13)) == NEAR_MIDDLE
    ensures var scan := ScanFrom(PrintDigits(NearDigits(13), "p" + FormatExponent(-1074)), [], None);
      && scan == Scan(NearDigits(13), Some(1), Some(FormatExponent(-1074)))
      && Expected(scan) == Finite(Round53(NEAR_MIDDLE), -1130)
  {
    NearValue(13);
    Pow16Values();
    ExponentRoundTrip(-1074);
    FewDigitsRead(NearDigits(13), FormatExponent(-1074), -1074);
  }

  lemma FewDigitsRead(ds: seq<nat>, text: string, e: int)
    requires DigitsOk(ds) && 2 <= |ds| <= 15 && Strtol(text) == Some(e) && -10000 < e < 10000
    ensures var scan := ScanFrom(PrintDigits(ds, "p" + text), [], None);
      scan == Scan(ds, Some(1), Some(text)) && Expected(scan) == Finite(Round53(Value(ds)), e - 4 * (|ds| - 1))
  {
    assert ("p" + text)[1..] == text;
    ScanPrinted(ds, "p" + text);
    FewDigits(ds);
  }
}
