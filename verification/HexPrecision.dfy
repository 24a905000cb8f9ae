/**
  Printing hexadecimal floats with a precision (`runtime/floats.c`): the mantissa is
  rounded to the nearest number of that many digits, and this is what is read back.
 */
module HexPrecision {

  import opened Arithmetic
  import opened Common
  import opened HexFloat
  import HexGrammar
  import opened HexString

  // ------------------------------------------------------------------------ rounding

  /** No multiple of `u` is nearer, and of two that are as near the even one is taken. */
  lemma RoundToNearest(x: nat, u: nat, k: nat)
    requires u > 0 && k * u != RoundTo(x, u)
    ensures Distance(x, RoundTo(x, u)) <= Distance(x, k * u)
    ensures Distance(x, RoundTo(x, u)) == Distance(x, k * u) ==> k % 2 == 1
  {
    var q := x / u;
    assert x == q * u + x % u;
    assert (q + 1) * u == q * u + u;
    if k < q {
      Successors(k, q, u);
    } else if k > q + 1 {
      Successors(q + 1, k, u);
    }
  }

  function Distance(x: int, y: int): nat {
    if x < y then y - x else x - y
  }

  /** The nearest number of units. */
  function Units(x: nat, u: nat): (n: nat)
    requires u > 0
    ensures n * u == RoundTo(x, u)
  {
    if 2 * (x % u) > u || (2 * (x % u) == u && x / u % 2 == 1) then x / u + 1 else x / u
  }

  /** The mantissa, counted in units of the last digit that is printed. */
  function InUnits(m: nat, prec: nat): nat {
    if prec < 13 then Units(m, Pow16(13 - prec)) else m * Pow16(prec - 13)
  }

  /** It has one digit more than the precision says. */
  lemma InUnitsBound(m: nat, prec: nat)
    requires m < TWO53
    ensures InUnits(m, prec) <= 2 * Pow16(prec) < Pow16(prec + 1)
  {
    Pow16Values();
    if prec < 13 {
      PowSplit(prec, 13 - prec);
      UnitsBound(m, Pow16(13 - prec), Pow16(prec));
    } else {
      var s := Pow16(prec - 13);
      PowSplit(13, prec - 13);
      Monotone(m, 2 * TWO52, s);
      Regroup(2, TWO52, s);
    }
  }

  lemma UnitsBound(m: nat, u: nat, p: nat)
    requires u > 0 && m < 2 * (p * u)
    ensures Units(m, u) <= 2 * p
  {
    Regroup(2, p, u);
    assert m == m / u * u + m % u;
    if m / u >= 2 * p {
      Monotone(2 * p, m / u, u);
    }
  }

  /** The rounding in caml_hexstring_of_float: `unit` is 2^(52 - 4 * prec). */
  method RoundMantissa(m: nat, prec: nat) returns (r: nat)
    requires prec < 13
    ensures r == RoundTo(m, Pow16(13 - prec))
  {
    r := RoundUnit(m, Pow16(13 - prec), 8 * Pow16(12 - prec));
  }

  method RoundUnit(m: nat, unit: nat, half: nat) returns (r: nat)
    requires unit == 2 * half > 0
    ensures r == RoundTo(m, unit)
  {
    var q, frac := Masked(m, unit);
    r := RoundParts(m, unit, half, q, frac);
    RoundsParts(m, unit, q, frac);
  }

  /** The bits of `m` from `unit` on, and those below it. */
  method Masked(m: nat, unit: nat) returns (q: nat, frac: nat)
    requires unit > 0
    ensures m == q * unit + frac && frac < unit
  {
    q, frac := m / unit, m % unit;
    Divides(m, unit);
  }

  lemma RoundsParts(m: nat, unit: nat, q: nat, frac: nat)
    requires m == q * unit + frac && frac < unit
    ensures RoundTo(m, unit) == Nearest(q, frac, unit)
  {
    DivideUnique(m, unit, q, frac);
  }

  method RoundParts(m: nat, unit: nat, half: nat, q: nat, frac: nat) returns (r: nat)
    requires unit == 2 * half && m == q * unit + frac
    ensures r == Nearest(q, frac, unit)
  {
    Distribute(q, 1, unit);
    r := m - frac;
    if frac > half || (frac == half && q % 2 != 0) {
      r := r + unit;
    }
  }

  // -------------------------------------------------------------------------- digits

  /** The `k` digits of a number. */
  function Digits(n: nat, k: nat): (ds: seq<nat>)
    requires n < Pow16(k)
    ensures |ds| == k
    decreases k
  {
    if k == 0 then []
    else
      var d := Quotient(n, Pow16(k - 1));
      [d] + Digits(n - d * Pow16(k - 1), k - 1)
  }

  lemma {:induction false} DigitsValue(n: nat, k: nat)
    requires n < Pow16(k)
    ensures DigitsOk(Digits(n, k)) && ValueFrom(Digits(n, k), 0) == n
    decreases k
  {
    if k > 0 {
      var p := Pow16(k - 1);
      var d := Quotient(n, p);
      SmallQuotient(n, p);
      DigitsValue(n - d * p, k - 1);
      var ds := Digits(n - d * p, k - 1);
      assert ([d] + ds)[1..] == ds;
      ValueShift(ds, d);
    }
  }

  /** The text of a finite double: with as many digits after the point as the precision
      says, or as are needed. */
  function Printed(m: nat, e: int, prec: int): string
    requires m < TWO53
  {
    if prec < 0 then PrintHex(m, e) else PrintFixed(m, e, prec)
  }

  function PrintFixed(m: nat, e: int, prec: nat): string
    requires m < TWO53
  {
    InUnitsBound(m, prec);
    DigitsValue(InUnits(m, prec), prec + 1);
    PrintDigits(Digits(InUnits(m, prec), prec + 1), "p" + FormatExponent(e))
  }

  // ------------------------------------------------------------------ the window

  /** `w`, a window of 56 bits, holds a number of `r` digits: shifted left, or without the
      zeros at its end that the window has no room for. */
  ghost predicate InWindow(n: nat, r: nat, w: nat) {
    && n < Pow16(r)
    && if r <= 14 then w == n * Pow16(14 - r) else n == w * Pow16(r - 14)
  }

  /** The first digit of the number is the first of the window, and shifting it out leaves
      the others. */
  lemma WindowDigit(n: nat, r: nat, w: nat)
    requires r > 0 && InWindow(n, r, w)
    ensures var q := Quotient(n, Pow16(r - 1));
      q < 16 && w / TWO52 == q && InWindow(n - q * Pow16(r - 1), r - 1, 16 * w % TWO56)
  {
    if r <= 14 {
      ShiftOut(n, r, w);
      assert Pow16(1) == 16 && Pow16(0) == 1;
    } else {
      LongDigit(n, r, w, Pow16(r - 14), Quotient(n, Pow16(r - 1)));
      SmallQuotient(n, Pow16(r - 1));
      LongRest(w % TWO52, r);
    }
  }

  lemma LongDigit(n: nat, r: nat, w: nat, s: nat, q: nat)
    requires r > 14 && s == Pow16(r - 14) && n == w * s && q == Quotient(n, Pow16(r - 1))
    ensures w / TWO52 == q && n - q * Pow16(r - 1) == w % TWO52 * s && 16 * w % TWO56 == 16 * (w % TWO52)
  {
    var a, b := w / TWO52, w % TWO52;
    assert Pow16(r - 1) == TWO52 * s by { PowSplit(13, r - 14); Pow16Values(); }
    assert n == a * (TWO52 * s) + b * s by { Recombine(a, TWO52, b, s); }
    assert b * s < TWO52 * s by { Successors(b, TWO52, s); }
    SameQuotient(n, TWO52 * s, a, b * s);
    WindowParts(w, a, b);
  }

  lemma SameQuotient(n: nat, p: nat, a: nat, b: nat)
    requires n == a * p + b && b < p
    ensures Quotient(n, p) == a
  {
    var q := Quotient(n, p);
    if q < a {
      Successors(q, a, p);
    } else if q > a {
      Successors(a, q, p);
    }
  }

  lemma LongRest(b: nat, r: nat)
    requires r > 14
    ensures b * Pow16(r - 14) == 16 * b * Pow16(r - 15)
  {
    ShiftOne(b, r - 15);
    Regroup(16, b, Pow16(r - 15));
  }

  /** The windows before each digit of `ds` is taken, and after the last one. */
  ghost predicate Follows(ms: seq<nat>, ds: seq<nat>) {
    |ms| == |ds| + 1 && forall i: nat :: i < |ds| ==> WindowStep(ms, ds, i)
  }

  lemma {:induction false} FollowWindow(n: nat, r: nat, w: nat) returns (ms: seq<nat>)
    requires InWindow(n, r, w)
    ensures Follows(ms, Digits(n, r)) && ms[0] == w
    decreases r
  {
    if r == 0 {
      ms := [w];
    } else {
      WindowDigit(n, r, w);
      var q := Quotient(n, Pow16(r - 1));
      var rest := n - q * Pow16(r - 1);
      ms := FollowWindow(rest, r - 1, 16 * w % TWO56);
      FollowCons(w, q, ms, Digits(rest, r - 1));
      ms := [w] + ms;
    }
  }

  lemma FollowCons(w: nat, q: nat, ms: seq<nat>, ds: seq<nat>)
    requires Follows(ms, ds) && q < 16 && w / TWO52 == q && ms[0] == 16 * w % TWO56
    ensures Follows([w] + ms, [q] + ds)
  {
    forall i: nat | i < |ds| + 1 ensures WindowStep([w] + ms, [q] + ds, i) {
      if i > 0 {
        assert WindowStep(ms, ds, i - 1);
      }
    }
  }

  /** The digits to print, and the windows that they come from. */
  lemma FixedPlan(m: nat, e: int, prec: nat, w: nat) returns (ds: seq<nat>, ms: seq<nat>)
    requires m < TWO53 && w == if prec < 13 then RoundTo(m, Pow16(13 - prec)) else m
    ensures |ds| == prec + 1 && DigitsOk(ds) && Follows(ms, ds) && ms[0] == w
    ensures PrintFixed(m, e, prec) == PrintDigits(ds, "p" + FormatExponent(e))
  {
    var n := InUnits(m, prec);
    InUnitsBound(m, prec);
    DigitsValue(n, prec + 1);
    assert InWindow(n, prec + 1, w) by { assert Pow16(0) == 1; }
    ds := Digits(n, prec + 1);
    ms := FollowWindow(n, prec + 1, w);
  }

  /** The loop over the fractional digits, with a precision. */
  method DigitChars(window: nat, prec: nat, ghost ms: seq<nat>, ghost ds: seq<nat>) returns (s: string)
    requires |ds| == prec + 1 && Follows(ms, ds) && DigitsOk(ds) && window == ms[1]
    ensures s == Chars(ds[1..])
  {
    var w, r: nat := window, prec;
    ghost var i: nat := 1;
    s := "";
    while r > 0
      invariant r == |ds| - i && 1 <= i && w == ms[i] && s == Chars(ds[1..i])
    {
      assert WindowStep(ms, ds, i);
      var d := w / TWO52;
      assert ds[1..i + 1] == ds[1..i] + [d];
      s := s + [DigitChar(d)];
      w := 16 * w % TWO56;
      i, r := i + 1, r - 1;
    }
    assert ds[1..i] == ds[1..];
  }

  /** The text with a precision. */
  method PrintPrecise(m: nat, e: int, prec: nat) returns (s: string)
    requires m < TWO53
    ensures s == PrintFixed(m, e, prec)
  {
    var w := m;
    if prec < 13 {
      w := RoundMantissa(m, prec);
    }
    ghost var ds, ms := FixedPlan(m, e, prec, w);
    assert WindowStep(ms, ds, 0);
    var d := w / TWO52;
    w := 16 * w % TWO56;
    s := [DigitChar(d)];
    if prec > 0 {
      var fraction := DigitChars(w, prec, ms, ds);
      s := s + ("." + fraction);
    } else {
      assert s + "" == s;
    }
    s := s + ("p" + FormatExponent(e));
  }

  /** caml_hexstring_of_float, of the double with the given sign, biased exponent and
      mantissa field; a negative precision stands for none. */
  method HexstringOfFloat(negative: bool, biased: nat, mantissa: nat, prec: int, style: char) returns (s: string)
    requires biased <= 0x7FF && mantissa < TWO52
    ensures var sign := if negative then "-" else if style == '+' then "+" else if style == ' ' then " " else "";
      s == sign + if biased == 0x7FF then (if mantissa == 0 then "infinity" else "nan")
                  else "0x" + Printed(Significand(biased, mantissa), TrueExponent(biased, mantissa), prec)
  {
    s := if negative then "-" else if style == '+' then "+" else if style == ' ' then " " else "";
    if biased == 0x7FF {
      return s + if mantissa == 0 then "infinity" else "nan";
    }
    var m: nat, e: int := mantissa, 0;
    if biased == 0 {
      if m != 0 {
        e := -1022;
      }
    } else {
      e := biased - 1023;
      m := m + TWO52;
    }
    var text;
    if prec < 0 {
      text := PrintFinite(m, e);
    } else {
      text := PrintPrecise(m, e, prec);
    }
    s := s + ("0x" + text);
  }

  function Significand(biased: nat, mantissa: nat): (m: nat)
    requires mantissa < TWO52
    ensures m < TWO53
  {
    if biased == 0 then mantissa else mantissa + TWO52
  }

  function TrueExponent(biased: nat, mantissa: nat): int {
    if biased == 0 then if mantissa == 0 then 0 else -1022 else biased - 1023
  }

  // --------------------------------------------------------------- reading it back

  ghost predicate Exact(x: nat) {
    x % Unit(x) == 0
  }

  lemma ExactRounds(x: nat)
    requires Exact(x)
    ensures Round53(x) == x
  {
    assert x == x / Unit(x) * Unit(x);
  }

  lemma {:induction false} ExactDouble(x: nat)
    requires Exact(x)
    ensures Exact(2 * x)
  {
    if 2 * x >= TWO53 {
      var u := Unit(x);
      assert 2 * x / 2 == x && Unit(2 * x) == 2 * u;
      var q := x / u;
      assert 2 * x == q * (2 * u) by { Regroup(q, 2, u); Regroup(2, q, u); }
      DivideUnique(2 * x, 2 * u, q, 0);
    }
  }

  lemma {:induction false} ExactShifted(m: nat, k: nat)
    requires m < TWO53
    ensures Exact(m * Pow16(k))
    decreases k
  {
    if k == 0 {
      assert m * Pow16(0) == m;
    } else {
      ExactShifted(m, k - 1);
      var x := m * Pow16(k - 1);
      ExactDouble(x);
      ExactDouble(2 * x);
      ExactDouble(4 * x);
      ExactDouble(8 * x);
      ShiftOne(m, k - 1);
    }
  }

  lemma FixedDigits(m: nat, e: int, prec: nat) returns (ds: seq<nat>)
    requires m < TWO53
    ensures |ds| == prec + 1 && DigitsOk(ds) && Value(ds) == InUnits(m, prec)
    ensures PrintFixed(m, e, prec) == PrintDigits(ds, "p" + FormatExponent(e))
  {
    InUnitsBound(m, prec);
    DigitsValue(InUnits(m, prec), prec + 1);
    ds := Digits(InUnits(m, prec), prec + 1);
    WholeValue(ds);
  }

  lemma {:induction false} UnitsSmall(m: nat, prec: nat)
    requires m < TWO53 && prec <= 13
    ensures InUnits(m, prec) < TWO53 && InUnits(m, prec) * Pow16(13 - prec) == RoundTo(m, Pow16(13 - prec))
  {
    if prec == 13 {
      assert Pow16(0) == 1 && RoundTo(m, 1) == m;
    } else {
      InUnitsBound(m, prec);
      PowSplit(prec, 12 - prec);
      Monotone(1, Pow16(12 - prec), Pow16(prec));
      assert Pow16(12) == 0x1_0000_0000_0000 by { assert Pow16(4) == 0x1_0000 && Pow16(8) == 0x1_0000_0000; }
    }
  }

  /** What is printed with a precision of up to 13 digits reads back as the mantissa,
      rounded to that many digits: nothing else is lost. */
  lemma {:induction false} FixedRoundTrip(m: nat, e: int, prec: nat)
    requires m < TWO53 && -1022 <= e <= 1023 && prec <= 13
    ensures var n := InUnits(m, prec);
      && Expected(ScanFrom(PrintFixed(m, e, prec), [], None)) == Finite(n, e - 4 * prec)
      && n * Pow16(13 - prec) == RoundTo(m, Pow16(13 - prec))
  {
    var ds := FixedDigits(m, e, prec);
    UnitsSmall(m, prec);
    ExponentRoundTrip(e);
    PrintedReadBack(ds, FormatExponent(e), e);
  }

  /** Reading gives exactly `value` times 2^`e`: the bits after the mantissa are zero, and
      the exponent makes up for them. */
  ghost predicate ReadsAs(s: string, value: nat, e: int) {
    var scan := ScanFrom(s, [], None);
    && scan.Scan? && Expected(scan).Finite?
    && var x := Accumulate(scan.digits).xBits;
    && x % 4 == 0 && Expected(scan).mantissa * Pow16(x / 4) == value
    && Expected(scan).exponent == Saturated(e + x)
  }

  lemma {:induction false} LongReadBack(ds: seq<nat>, text: string, e: int)
    requires DigitsOk(ds) && |ds| > 1 && Exact(Value(ds)) && Strtol(text) == Some(e) && INT_MIN < e < INT_MAX
    ensures ReadsAs(PrintDigits(ds, "p" + text), Value(ds), e - 4 * (|ds| - 1))
  {
    assert ("p" + text)[1..] == text;
    ScanPrinted(ds, "p" + text);
    RoundsAllDigits(ds);
    ExactRounds(Value(ds));
  }

  lemma {:induction false} LongDigits(m: nat, e: int, prec: nat) returns (ds: seq<nat>)
    requires m < TWO53 && prec >= 13
    ensures |ds| == prec + 1 && DigitsOk(ds) && Exact(Value(ds)) && Value(ds) == m * Pow16(prec - 13)
    ensures PrintFixed(m, e, prec) == PrintDigits(ds, "p" + FormatExponent(e))
  {
    ds := FixedDigits(m, e, prec);
    ExactShifted(m, prec - 13);
  }

  /** With 13 digits or more it reads back as it was: the bits that the reader has no room
      for are zero. */
  lemma {:induction false} LongRoundTrip(m: nat, e: int, prec: nat)
    requires m < TWO53 && -1022 <= e <= 1023 && prec >= 13
    ensures ReadsAs(PrintFixed(m, e, prec), m * Pow16(prec - 13), e - 4 * prec)
  {
    var ds := LongDigits(m, e, prec);
    ExponentRoundTrip(e);
    LongReadBack(ds, FormatExponent(e), e);
  }

  /** With a precision there are as many digits after the point as it says, zeros included. */
  lemma FixedShape(m: nat, e: int, prec: nat) returns (ds: seq<nat>)
    requires m < TWO53
    ensures |ds| == prec + 1
    ensures HexGrammar.Mantissa(PrintFixed(m, e, prec), ds, HexGrammar.AfterFirst(ds), Some(FormatExponent(e)))
  {
    InUnitsBound(m, prec);
    DigitsValue(InUnits(m, prec), prec + 1);
    ds := Digits(InUnits(m, prec), prec + 1);
    HexGrammar.PrintedMantissa(ds, FormatExponent(e));
  }
}
