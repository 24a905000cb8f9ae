/**
  Reading and printing hexadecimal floats as strings (`runtime/floats.c`), after the sign
  and the prefix 0x: the reader accepts exactly the strings described by `Scan`, and
  reads back what the printer writes.
 */
module HexString {

  import opened Arithmetic
  import opened Common
  import opened HexFloat

  const INT_MAX := 0x7FFF_FFFF
  const INT_MIN := -0x8000_0000

  // ----------------------------------------------------------------- what is accepted

  function HexDigit(c: char): Option<nat> {
    if '0' <= c <= '9' then Some((c - '0') as nat)
    else if 'A' <= c <= 'F' then Some((c - 'A') as nat + 10)
    else if 'a' <= c <= 'f' then Some((c - 'a') as nat + 10)
    else None
  }

  /** The digits, how many of them come before the point, and the text of the exponent. */
  datatype Scan = Malformed | Scan(digits: seq<nat>, point: Option<nat>, exponent: Option<string>)

  function ScanFrom(s: string, digits: seq<nat>, point: Option<nat>): Scan {
    if s == "" then Scan(digits, point, None)
    else if s[0] == '.' then
      if point.Some? then Malformed else ScanFrom(s[1..], digits, Some(|digits|))
    else if s[0] == 'p' || s[0] == 'P' then Scan(digits, point, Some(s[1..]))
    else match HexDigit(s[0])
      case None => Malformed
      case Some(d) => ScanFrom(s[1..], digits + [d], point)
  }

  function Decimal(s: string): Option<nat> {
    if s == "" then Some(0)
    else if '0' <= s[|s| - 1] <= '9' then
      match Decimal(s[..|s| - 1])
      case None => None
      case Some(n) => Some(10 * n + (s[|s| - 1] - '0') as nat)
    else None
  }

  predicate IsSpace(c: char) {
    c == ' ' || ('\t' <= c <= '\r')
  }

  /** strtol on the whole of a string: white space, a sign, digits. */
  function Strtol(s: string): Option<int> {
    if s == "" then None
    else if IsSpace(s[0]) then Strtol(s[1..])
    else
      var digits := if s[0] == '-' || s[0] == '+' then s[1..] else s;
      if digits == "" || Decimal(digits) == None then None
      else if s[0] == '-' then Some(-(Decimal(digits).value as int)) else Some(Decimal(digits).value)
  }

  /** What reading gives: an error, zero, infinity, or a double times a power of two. */
  datatype Outcome = Bad | Zero | Huge | Finite(mantissa: nat, exponent: int)

  /** exp + adj, saturated at the limits of int. */
  function Saturated(e: int): int {
    if e > INT_MAX then INT_MAX else if e < INT_MIN then INT_MIN else e
  }

  /** Bits after the mantissa less bits after the point. */
  function Adjustment(digits: seq<nat>, point: Option<nat>): int {
    Accumulate(digits).xBits + if point.Some? then 4 * (point.value - |digits|) else 0
  }

  function Exponent(scan: Scan): Option<int>
    requires scan.Scan?
  {
    if scan.exponent == None then Some(0) else Strtol(scan.exponent.value)
  }

  function Expected(scan: Scan): Outcome {
    if scan.Malformed? then Bad
    else
      var e := Exponent(scan);
      if e == None then Bad
      else if e.value <= INT_MIN then Zero
      else if e.value >= INT_MAX then if Accumulate(scan.digits).m == 0 then Zero else Huge
      else if scan.digits == [] then Bad
      else Finite(Round53(Accumulate(scan.digits).m), Saturated(e.value + Adjustment(scan.digits, scan.point)))
  }

  lemma {:induction false} ScanDigits(s: string, digits: seq<nat>, point: Option<nat>)
    requires DigitsOk(digits)
    ensures ScanFrom(s, digits, point).Scan? ==> DigitsOk(ScanFrom(s, digits, point).digits)
    decreases |s|
  {
    if s != "" {
      if s[0] == '.' {
        ScanDigits(s[1..], digits, Some(|digits|));
      } else if HexDigit(s[0]).Some? {
        ScanDigits(s[1..], digits + [HexDigit(s[0]).value], point);
      }
    }
  }

  /** A finite result is the exact value of the digits, rounded once to 53 bits: the bits
      that the mantissa leaves out are made up for by the exponent. */
  lemma FiniteIsRounded(s: string)
    requires Expected(ScanFrom(s, [], None)).Finite?
    ensures var scan, r := ScanFrom(s, [], None), Expected(ScanFrom(s, [], None));
      var x, after := Accumulate(scan.digits).xBits, if scan.point.Some? then |scan.digits| - scan.point.value else 0;
      && x % 4 == 0 && r.mantissa * Pow16(x / 4) == Round53(Value(scan.digits))
      && Exponent(scan).Some? && r.exponent == Saturated(Exponent(scan).value - 4 * after + x)
  {
    ScanDigits(s, [], None);
    RoundsAllDigits(ScanFrom(s, [], None).digits);
  }

  // ---------------------------------------------------------------------- the reader

  /** One more digit of the mantissa. */
  method TakeDigit(m: nat, mBits: nat, xBits: nat, d: nat, ghost digits: seq<nat>)
    returns (m': nat, mBits': nat, xBits': nat)
    requires Acc(m, mBits, xBits) == Accumulate(digits)
    ensures Acc(m', mBits', xBits') == Accumulate(digits + [d])
  {
    assert (digits + [d])[..|digits|] == digits;
    m', mBits', xBits' := m, mBits, xBits;
    if !(d == 0 && m == 0) {
      if mBits < 60 {
        m', mBits' := 16 * m + d, mBits + 4;
      } else {
        if d != 0 {
          m' := OrOne(m);
        }
        xBits' := xBits + 4;
      }
    }
  }

  /** The exponent, or the outcome that it decides. */
  method TakeExponent(text: string, m: nat, ghost digits: seq<nat>, ghost point: Option<nat>)
    returns (early: Option<Outcome>, exp: int)
    requires m == Accumulate(digits).m
    ensures early == None ==> Strtol(text) == Some(exp) && INT_MIN < exp < INT_MAX
    ensures early.Some? ==> early.value == Expected(Scan(digits, point, Some(text)))
  {
    if text == "" {
      return Some(Bad), 0;
    }
    var e := Strtol(text);
    if e == None {
      return Some(Bad), 0;
    }
    exp := e.value;
    early := if exp <= INT_MIN then Some(Zero)
      else if exp >= INT_MAX then Some(if m == 0 then Zero else Huge)
      else None;
  }

  /** caml_float_of_hex; the conversion of the mantissa to a double is Round53, and ldexp
      is exact as long as the result is a normal double. */
  method FloatOfHex(s: string) returns (r: Outcome)
    ensures r == Expected(ScanFrom(s, [], None))
  {
    var m: nat, nBits, mBits: nat, xBits: nat := 0, 0, 0, 0;
    var decPoint: int, exp: int := -1, 0;
    var i := 0;
    ghost var digits: seq<nat>, point: Option<nat>, exponent: Option<string> := [], None, None;
    while i < |s|
      invariant i <= |s| && Acc(m, mBits, xBits) == Accumulate(digits) && nBits == 4 * |digits|
      invariant decPoint == if point == None then -1 else 4 * point.value
      invariant exponent == None ==> exp == 0 && ScanFrom(s, [], None) == ScanFrom(s[i..], digits, point)
      invariant exponent.Some? ==> i == |s| && ScanFrom(s, [], None) == Scan(digits, point, exponent)
      invariant exponent.Some? ==> Strtol(exponent.value) == Some(exp) && INT_MIN < exp < INT_MAX
    {
      var c := s[i];
      assert s[i..][0] == c && s[i..][1..] == s[i + 1..];
      i := i + 1;
      if c == '.' {
        if decPoint >= 0 {
          return Bad;
        }
        decPoint := nBits;
        point := Some(|digits|);
      } else if c == 'p' || c == 'P' {
        exponent := Some(s[i..]);
        var early;
        early, exp := TakeExponent(s[i..], m, digits, point);
        if early.Some? {
          return early.value;
        }
        i := |s|;
      } else {
        var d := HexDigit(c);
        if d == None {
          return Bad;
        }
        nBits := nBits + 4;
        m, mBits, xBits := TakeDigit(m, mBits, xBits, d.value, digits);
        digits := digits + [d.value];
      }
    }
    if nBits == 0 {
      return Bad;
    }
    var adj := xBits;
    if decPoint >= 0 {
      adj := adj + (decPoint - nBits);
    }
    r := Finite(Round53(m), Saturated(exp + adj));
  }

  // --------------------------------------------------------------------- the printer

  function DigitChar(d: nat): char
    requires d < 16
  {
    if d < 10 then '0' + d as char else 'a' + (d - 10) as char
  }

  lemma DigitRoundTrip(d: nat)
    requires d < 16
    ensures HexDigit(DigitChar(d)) == Some(d) && DigitChar(d) != '.' && DigitChar(d) != 'p' && DigitChar(d) != 'P'
  {
  }

  function Chars(ds: seq<nat>): (s: string)
    requires DigitsOk(ds)
    ensures |s| == |ds|
  {
    seq(|ds|, i requires 0 <= i < |ds| => DigitChar(ds[i]))
  }

  lemma SmallQuotient(f: nat, p: nat)
    requires p > 0 && f < 16 * p
    ensures Quotient(f, p) < 16
  {
    if Quotient(f, p) >= 16 {
      Monotone(16, Quotient(f, p), p);
    }
  }

  /** The hexadecimal digits of a fraction of `n` digits, without trailing zeros. */
  function FractionDigits(f: nat, n: nat): (ds: seq<nat>)
    requires f < Pow16(n)
    ensures |ds| <= n
  {
    if f == 0 then []
    else
      var d := Quotient(f, Pow16(n - 1));
      [d] + FractionDigits(f - d * Pow16(n - 1), n - 1)
  }

  lemma {:induction false} FractionValue(f: nat, n: nat)
    requires f < Pow16(n)
    ensures DigitsOk(FractionDigits(f, n))
    ensures ValueFrom(FractionDigits(f, n), 0) * Pow16(n - |FractionDigits(f, n)|) == f
    decreases n
  {
    if f != 0 {
      var p := Pow16(n - 1);
      var d := Quotient(f, p);
      var rest := f - d * p;
      SmallQuotient(f, p);
      FractionValue(rest, n - 1);
      var ds := FractionDigits(rest, n - 1);
      assert FractionDigits(f, n) == [d] + ds;
      FractionHead(d, ds, n, rest);
    }
  }

  lemma FractionHead(d: nat, ds: seq<nat>, n: nat, rest: nat)
    requires |ds| < n && ValueFrom(ds, 0) * Pow16(n - 1 - |ds|) == rest
    ensures ValueFrom([d] + ds, 0) * Pow16(n - |[d] + ds|) == d * Pow16(n - 1) + rest
  {
    assert ([d] + ds)[1..] == ds;
    ValueShift(ds, d);
    PowSplit(|ds|, n - 1 - |ds|);
    Recombine(d, Pow16(|ds|), ValueFrom(ds, 0), Pow16(n - 1 - |ds|));
  }

  lemma Recombine(d: nat, a: nat, v: nat, t: nat)
    ensures (d * a + v) * t == d * (a * t) + v * t
  {
    Distribute(d * a, v, t);
    Regroup(d, a, t);
  }

  /** The digits as a number, after a number already read. */
  function ValueFrom(ds: seq<nat>, v: nat): nat {
    if ds == [] then v else ValueFrom(ds[1..], 16 * v + ds[0])
  }

  lemma {:induction false} ValueShift(ds: seq<nat>, v: nat)
    ensures ValueFrom(ds, v) == v * Pow16(|ds|) + ValueFrom(ds, 0)
    decreases |ds|
  {
    if ds != [] {
      ValueShift(ds[1..], 16 * v + ds[0]);
      ValueShift(ds[1..], ds[0]);
      var p := Pow16(|ds| - 1);
      Distribute(16 * v, ds[0], p);
      Regroup(v, 16, p);
      assert v * 16 == 16 * v;
    }
  }

  lemma {:induction false} PowSplit(a: nat, b: nat)
    ensures Pow16(a + b) == Pow16(a) * Pow16(b)
    decreases a
  {
    if a > 0 {
      PowSplit(a - 1, b);
      Regroup(16, Pow16(a - 1), Pow16(b));
    }
  }

  lemma {:induction false} ValueSame(ds: seq<nat>, v: nat, es: seq<nat>)
    requires Value(es) == v
    ensures ValueFrom(ds, v) == Value(es + ds)
    decreases |ds|
  {
    if ds == [] {
      assert es + ds == es;
    } else {
      assert (es + [ds[0]])[..|es|] == es;
      ValueSame(ds[1..], 16 * v + ds[0], es + [ds[0]]);
      assert es + [ds[0]] + ds[1..] == es + ds;
    }
  }

  lemma {:induction false} WholeValue(ds: seq<nat>)
    ensures ValueFrom(ds, 0) == Value(ds)
  {
    ValueSame(ds, 0, []);
    assert [] + ds == ds;
  }

  function DecimalChars(n: nat): (s: string)
    ensures s != ""
  {
    if n < 10 then ['0' + n as char] else DecimalChars(n / 10) + ['0' + (n % 10) as char]
  }

  lemma {:induction false} DecimalRoundTrip(n: nat)
    ensures Decimal(DecimalChars(n)) == Some(n) && '0' <= DecimalChars(n)[0] <= '9'
  {
    if n >= 10 {
      DecimalRoundTrip(n / 10);
      var s := DecimalChars(n);
      assert s[..|s| - 1] == DecimalChars(n / 10);
    } else {
      assert ['0' + n as char][..0] == "" && Decimal("") == Some(0);
    }
  }

  /** The exponent as printf writes it with %+d. */
  function FormatExponent(e: int): string {
    if e < 0 then "-" + DecimalChars(-e) else "+" + DecimalChars(e)
  }

  lemma ExponentRoundTrip(e: int)
    ensures Strtol(FormatExponent(e)) == Some(e) && FormatExponent(e) != ""
  {
    var s := FormatExponent(e);
    DecimalRoundTrip(if e < 0 then -e else e);
    assert s[1..] == DecimalChars(if e < 0 then -e else e);
  }

  /** The text for a mantissa of 53 bits and an exponent: one digit, the others that are
      needed, the exponent. */
  function PrintHex(m: nat, e: int): string
    requires m < TWO53
  {
    PrintedValue(m);
    PrintDigits(PrintedDigits(m), "p" + FormatExponent(e))
  }

  function PrintDigits(ds: seq<nat>, tail: string): string
    requires DigitsOk(ds) && ds != []
  {
    [DigitChar(ds[0])] + (if |ds| == 1 then "" else "." + Chars(ds[1..])) + tail
  }

  lemma {:induction false} ScanChars(ds: seq<nat>, rest: string, digits: seq<nat>, point: Option<nat>)
    requires DigitsOk(ds)
    ensures ScanFrom(Chars(ds) + rest, digits, point) == ScanFrom(rest, digits + ds, point)
    decreases |ds|
  {
    var s := Chars(ds) + rest;
    if ds == [] {
      assert s == rest && digits + ds == digits;
    } else {
      DigitRoundTrip(ds[0]);
      assert s[0] == DigitChar(ds[0]) && s[1..] == Chars(ds[1..]) + rest;
      ScanChars(ds[1..], rest, digits + [ds[0]], point);
      assert digits + [ds[0]] + ds[1..] == digits + ds;
    }
  }

  /** The digits that are printed for a mantissa. */
  function PrintedDigits(m: nat): seq<nat>
    requires m < TWO53
  {
    Pow16Values();
    [m / TWO52] + FractionDigits(m % TWO52, 13)
  }

  /** The printed digits make up the mantissa, trailing zeros apart. */
  lemma PrintedValue(m: nat)
    requires m < TWO53
    ensures DigitsOk(PrintedDigits(m)) && 1 <= |PrintedDigits(m)| <= 14
    ensures Value(PrintedDigits(m)) * Pow16(14 - |PrintedDigits(m)|) == m
  {
    PartsValue(m / TWO52, m % TWO52);
  }

  lemma {:induction false} PartsValue(d: nat, f: nat)
    requires d < 2 && f < TWO52
    ensures f < Pow16(13)
    ensures var ds := [d] + FractionDigits(f, 13);
      DigitsOk(ds) && 1 <= |ds| <= 14 && Value(ds) * Pow16(14 - |ds|) == d * TWO52 + f
  {
    Pow16Values();
    FractionValue(f, 13);
    var ds := FractionDigits(f, 13);
    FractionHead(d, ds, 14, f);
    WholeValue([d] + ds);
  }

  /** The digits come back as they were printed, with the point after the first one. */
  lemma ScanPrinted(ds: seq<nat>, tail: string)
    requires DigitsOk(ds) && ds != [] && tail != "" && tail[0] == 'p'
    ensures ScanFrom(PrintDigits(ds, tail), [], None) ==
            Scan(ds, if |ds| == 1 then None else Some(1), Some(tail[1..]))
  {
    var d, s := ds[0], PrintDigits(ds, tail);
    DigitRoundTrip(d);
    assert s[0] == DigitChar(d);
    assert [] + [d] == [d];
    if |ds| == 1 {
      assert s[1..] == tail && ds == [d];
    } else {
      var rest := "." + Chars(ds[1..]) + tail;
      assert s[1..] == rest;
      assert rest[0] == '.' && rest[1..] == Chars(ds[1..]) + tail;
      ScanChars(ds[1..], tail, [d], Some(1));
      assert [d] + ds[1..] == ds;
    }
  }

  /** Fifteen digits or less fit the mantissa as they are. */
  lemma {:induction false} FewDigits(ds: seq<nat>)
    requires |ds| <= 15
    ensures var a := Accumulate(ds);
      a.m == Value(ds) && a.xBits == 0 && a.mBits <= 4 * |ds|
    decreases |ds|
  {
    if ds != [] {
      FewDigits(ds[..|ds| - 1]);
    }
  }

  /** Printing a finite double without a precision and reading the text back gives the
      same mantissa times the same power of two: trailing zeros that are not printed are
      made up for by the exponent. */
  lemma HexRoundTrip(m: nat, e: int)
    requires m < TWO53 && -1022 <= e <= 1023
    ensures var r, n := Expected(ScanFrom(PrintHex(m, e), [], None)), |PrintedDigits(m)|;
      r.Finite? && 1 <= n <= 14 && r.mantissa * Pow16(14 - n) == m && r.exponent == e - 4 * (n - 1)
  {
    PrintedValue(m);
    ExponentRoundTrip(e);
    SmallValue(PrintedDigits(m), m);
    PrintedReadBack(PrintedDigits(m), FormatExponent(e), e);
  }

  lemma {:induction false} SmallValue(ds: seq<nat>, m: nat)
    requires |ds| <= 14 && Value(ds) * Pow16(14 - |ds|) == m
    ensures Value(ds) <= m
  {
    Monotone(1, Pow16(14 - |ds|), Value(ds));
    assert Value(ds) <= Value(ds) * Pow16(14 - |ds|);
  }

  lemma PrintedReadBack(ds: seq<nat>, text: string, e: int)
    requires DigitsOk(ds) && 1 <= |ds| <= 14 && Value(ds) < TWO53
    requires Strtol(text) == Some(e) && -1022 <= e <= 1023
    ensures Expected(ScanFrom(PrintDigits(ds, "p" + text), [], None)) == Finite(Value(ds), e - 4 * (|ds| - 1))
  {
    var tail := "p" + text;
    assert tail[1..] == text;
    ScanPrinted(ds, tail);
    FewDigits(ds);
    ExactInteger(Value(ds));
  }

  lemma ExactInteger(x: nat)
    requires x < TWO53
    ensures Round53(x) == x
  {
  }

  /** A window of 56 bits on a fraction: its first digit, and the others shifted. */
  lemma Window(f: nat, q: nat, p: nat, t: nat, m: nat)
    requires p * t == TWO52 && m == f * t && q * p <= f < q * p + p
    ensures m / TWO52 == q && 16 * m % TWO56 == 16 * ((f - q * p) * t)
  {
    var rest := f - q * p;
    assert m == q * TWO52 + rest * t by { Recombine(q, p, rest, t); }
    assert rest * t < TWO52 by { Successors(rest, p, t); }
    WindowParts(m, q, rest * t);
  }

  lemma WindowParts(m: nat, q: nat, r: nat)
    requires m == q * TWO52 + r && r < TWO52
    ensures m / TWO52 == q && 16 * m % TWO56 == 16 * r
  {
  }

  /** One digit of the fraction: shifting it out of the window. */
  lemma ShiftOut(f: nat, n: nat, m: nat)
    requires 1 <= n <= 14 && f < Pow16(n) && m == f * Pow16(14 - n)
    ensures var q := Quotient(f, Pow16(n - 1));
      q < 16 && m / TWO52 == q && 16 * m % TWO56 == (f - q * Pow16(n - 1)) * Pow16(15 - n)
  {
    var p, t := Pow16(n - 1), Pow16(14 - n);
    var q := Quotient(f, p);
    SmallQuotient(f, p);
    assert p * t == TWO52 by { PowSplit(n - 1, 14 - n); Pow16Values(); }
    Window(f, q, p, t, m);
    ShiftOne(f - q * p, 14 - n);
  }

  lemma ShiftOne(rest: nat, k: nat)
    ensures 16 * (rest * Pow16(k)) == rest * Pow16(k + 1)
  {
    Regroup(16, rest, Pow16(k));
    Regroup(rest, 16, Pow16(k));
    assert 16 * rest == rest * 16;
  }

  /** The loop over the fractional digits in caml_hexstring_of_float, with no precision:
      as many as are needed. */
  method FractionChars(f: nat) returns (s: string)
    requires f < TWO52
    ensures f < Pow16(13) && DigitsOk(FractionDigits(f, 13)) && s == Chars(FractionDigits(f, 13))
  {
    Pow16Values();
    FractionValue(f, 13);
    assert Pow16(1) == 16;
    ghost var ds := FractionDigits(f, 13);
    ghost var ms := Windows(f, 13, 16 * f);
    var m := 16 * f;
    s := "";
    ghost var i: nat := 0;
    while m != 0
      invariant i <= |ds| && m == ms[i] && s == Chars(ds[..i])
      decreases |ds| - i
    {
      WindowNext(ms, ds, i);
      var d := m / TWO52;
      assert ds[..i + 1] == ds[..i] + [d];
      s := s + [DigitChar(d)];
      m := 16 * m % TWO56;
      i := i + 1;
    }
    WindowEnd(ms, ds, i);
    assert ds[..i] == ds;
  }

  /** The window before each digit is taken out of it. */
  ghost predicate WindowStep(ms: seq<nat>, ds: seq<nat>, i: nat)
    requires i < |ds| == |ms| - 1
  {
    ds[i] < 16 && ms[i] / TWO52 == ds[i] && ms[i + 1] == 16 * ms[i] % TWO56
  }

  ghost predicate WindowsOk(ms: seq<nat>, ds: seq<nat>) {
    |ms| == |ds| + 1 && ms[|ds|] == 0 && forall i: nat :: i < |ds| ==> ms[i] != 0 && WindowStep(ms, ds, i)
  }

  lemma {:induction false} Windows(g: nat, n: nat, m: nat) returns (ms: seq<nat>)
    requires n <= 13 && g < Pow16(n) && m == g * Pow16(14 - n)
    ensures WindowsOk(ms, FractionDigits(g, n)) && ms[0] == m
    decreases n
  {
    if g == 0 {
      ms := [0];
    } else {
      var q, rest, m' := WindowTurn(g, n, m);
      ms := Windows(rest, n - 1, m');
      WindowCons(m, q, ms, FractionDigits(rest, n - 1));
      ms := [m] + ms;
    }
  }

  lemma WindowTurn(g: nat, n: nat, m: nat) returns (q: nat, rest: nat, m': nat)
    requires n <= 13 && 0 < g < Pow16(n) && m == g * Pow16(14 - n)
    ensures 1 <= n && q < 16 && rest < Pow16(n - 1) && FractionDigits(g, n) == [q] + FractionDigits(rest, n - 1)
    ensures m != 0 && m / TWO52 == q && m' == 16 * m % TWO56 == rest * Pow16(14 - (n - 1))
  {
    assert n > 0 by { assert Pow16(0) == 1; }
    ShiftOut(g, n, m);
    Positive(g, Pow16(14 - n));
    q := Quotient(g, Pow16(n - 1));
    rest, m' := g - q * Pow16(n - 1), 16 * m % TWO56;
  }

  lemma WindowCons(m: nat, q: nat, ms: seq<nat>, ds: seq<nat>)
    requires WindowsOk(ms, ds) && m != 0 && q < 16 && m / TWO52 == q && ms[0] == 16 * m % TWO56
    ensures WindowsOk([m] + ms, [q] + ds)
  {
    forall i: nat | i < |ds| + 1 ensures ([m] + ms)[i] != 0 && WindowStep([m] + ms, [q] + ds, i) {
      if i > 0 {
        assert WindowStep(ms, ds, i - 1);
      }
    }
  }

  lemma WindowNext(ms: seq<nat>, ds: seq<nat>, i: nat)
    requires WindowsOk(ms, ds) && i <= |ds| && ms[i] != 0
    ensures i < |ds| && WindowStep(ms, ds, i)
  {
    assert i < |ds| ==> WindowStep(ms, ds, i);
  }

  lemma WindowEnd(ms: seq<nat>, ds: seq<nat>, i: nat)
    requires WindowsOk(ms, ds) && i <= |ds| && ms[i] == 0
    ensures i == |ds|
  {
  }

  lemma Positive(a: nat, b: nat)
    requires b > 0
    ensures a * b == 0 ==> a == 0
  {
  }

  method PrintFinite(m: nat, e: int) returns (s: string)
    requires m < TWO53
    ensures s == PrintHex(m, e)
  {
    PrintedValue(m);
    PrintedText(m, "p" + FormatExponent(e));
    s := [DigitChar(m / TWO52)];
    if m % TWO52 != 0 {
      var fraction := FractionChars(m % TWO52);
      s := s + ("." + fraction);
    } else {
      assert s + "" == s;
    }
    s := s + ("p" + FormatExponent(e));
  }

  lemma PrintedText(m: nat, tail: string)
    requires m < TWO53 && DigitsOk(PrintedDigits(m))
    ensures var f := m % TWO52;
      f < Pow16(13) && DigitsOk(FractionDigits(f, 13))
      && PrintDigits(PrintedDigits(m), tail) ==
         [DigitChar(m / TWO52)] + (if f == 0 then "" else "." + Chars(FractionDigits(f, 13))) + tail
  {
    Pow16Values();
    FractionValue(m % TWO52, 13);
    assert PrintedDigits(m)[1..] == FractionDigits(m % TWO52, 13);
  }
}
