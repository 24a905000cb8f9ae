/**
  The strings that hexadecimal float reading accepts (`runtime/floats.c`), as a grammar that
  does not mention the scanner: hexadecimal digits in either case with at most one point,
  then optionally p or P and a decimal integer as strtol takes it.
 */
module HexGrammar {

  import opened Arithmetic
  import opened Common
  import opened HexFloat
  import opened HexString

  // -------------------------------------------------------------- hexadecimal digits

  const LOWER := "0123456789abcdef"
  const UPPER := "0123456789ABCDEF"

  /** A character is read as the digit that it is in either alphabet, and no other is read. */
  lemma HexDigitExact(c: char, d: nat)
    ensures HexDigit(c) == Some(d) <==> d < 16 && (c == LOWER[d] || c == UPPER[d])
  {
    if d < 10 {
      assert LOWER[d] == '0' + d as char && UPPER[d] == '0' + d as char;
    } else if d < 16 {
      assert LOWER[d] == 'a' + (d - 10) as char && UPPER[d] == 'A' + (d - 10) as char;
    }
  }

  ghost predicate Writes(s: string, ds: seq<nat>) {
    |s| == |ds| && forall i :: 0 <= i < |s| ==> ds[i] < 16 && (s[i] == LOWER[ds[i]] || s[i] == UPPER[ds[i]])
  }

  lemma WritesFirst(s: string, ds: seq<nat>)
    requires s != "" && ds != []
    ensures Writes(s, ds) <==> HexDigit(s[0]) == Some(ds[0]) && Writes(s[1..], ds[1..])
  {
    HexDigitExact(s[0], ds[0]);
    if HexDigit(s[0]) == Some(ds[0]) && Writes(s[1..], ds[1..]) {
      forall i | 0 <= i < |s| ensures ds[i] < 16 && (s[i] == LOWER[ds[i]] || s[i] == UPPER[ds[i]]) {
        if i > 0 {
          assert s[i] == s[1..][i - 1] && ds[i] == ds[1..][i - 1];
        }
      }
    }
  }

  /** Neither the point nor the exponent mark is a digit. */
  lemma Marks(c: char)
    requires HexDigit(c).Some?
    ensures c != '.' && c != 'p' && c != 'P'
  {
  }

  // -------------------------------------------------------------------- the mantissa

  /** Nothing, or p or P and the text of the exponent. */
  predicate Tail(s: string, exponent: Option<string>) {
    match exponent
    case None => s == ""
    case Some(x) => s != "" && (s[0] == 'p' || s[0] == 'P') && s[1..] == x
  }

  /** Digits up to the tail, no point among them. */
  ghost predicate Fraction(s: string, ds: seq<nat>, exponent: Option<string>) {
    |ds| <= |s| && Writes(s[..|ds|], ds) && Tail(s[|ds|..], exponent)
  }

  /** Digits, of which `point` of them come before the point if there is one. */
  ghost predicate Mantissa(s: string, ds: seq<nat>, point: Option<nat>, exponent: Option<string>) {
    match point
    case None => Fraction(s, ds, exponent)
    case Some(k) =>
      && k <= |ds| && k < |s| && Writes(s[..k], ds[..k])
      && s[k] == '.' && Fraction(s[k + 1..], ds[k..], exponent)
  }

  /** What a scan gives that has read `before` already. */
  function Prepend(before: seq<nat>, ds: seq<nat>, point: Option<nat>, exponent: Option<string>): Scan {
    Scan(before + ds, if point.Some? then Some(|before| + point.value) else None, exponent)
  }

  lemma {:induction false} FractionScan(s: string, before: seq<nat>, k: nat, ds: seq<nat>, exponent: Option<string>)
    requires Fraction(s, ds, exponent)
    ensures ScanFrom(s, before, Some(k)) == Scan(before + ds, Some(k), exponent)
    decreases |s|
  {
    if ds == [] {
      assert s[0..] == s && before + ds == before;
    } else {
      TakeDigitOff(s, ds, exponent);
      FractionScan(s[1..], before + [ds[0]], k, ds[1..], exponent);
      assert before + [ds[0]] + ds[1..] == before + ds;
    }
  }

  lemma TakeDigitOff(s: string, ds: seq<nat>, exponent: Option<string>)
    requires Fraction(s, ds, exponent) && ds != []
    ensures s != "" && HexDigit(s[0]) == Some(ds[0]) && s[0] != '.' && s[0] != 'p' && s[0] != 'P'
    ensures Fraction(s[1..], ds[1..], exponent)
  {
    var n := |ds|;
    WritesFirst(s[..n], ds);
    Marks(s[0]);
    assert s[..n][1..] == s[1..][..n - 1] && s[1..][n - 1..] == s[n..];
  }

  lemma PutDigitOn(s: string, ds: seq<nat>, exponent: Option<string>)
    requires s != "" && HexDigit(s[0]).Some? && Fraction(s[1..], ds, exponent)
    ensures Fraction(s, [HexDigit(s[0]).value] + ds, exponent)
  {
    var es, n := [HexDigit(s[0]).value] + ds, |ds| + 1;
    assert s[..n][1..] == s[1..][..n - 1] && s[1..][n - 1..] == s[n..] && es[1..] == ds;
    WritesFirst(s[..n], es);
  }

  /** Every text of the grammar is scanned as what it writes. */
  lemma {:induction false} MantissaScan(s: string, before: seq<nat>, ds: seq<nat>, point: Option<nat>,
    exponent: Option<string>)
    requires Mantissa(s, ds, point, exponent)
    ensures ScanFrom(s, before, None) == Prepend(before, ds, point, exponent)
    decreases |s|
  {
    if point == Some(0) {
      StartsWithPoint(s, ds, exponent);
      FractionScan(s[1..], before, |before|, ds, exponent);
    } else if ds == [] {
      NoDigits(s, before, exponent);
    } else {
      var next := MantissaRest(s, ds, point, exponent);
      ScanDigit(s, before, None);
      MantissaScan(s[1..], before + [ds[0]], ds[1..], next, exponent);
      PrependShift(before, ds[0], ds[1..], next, exponent);
      assert [ds[0]] + ds[1..] == ds;
    }
  }

  lemma NoDigits(s: string, before: seq<nat>, exponent: Option<string>)
    requires Fraction(s, [], exponent)
    ensures ScanFrom(s, before, None) == Prepend(before, [], None, exponent)
  {
    assert s[0..] == s && before + [] == before;
  }

  /** A digit more before the point. */
  function Farther(point: Option<nat>): Option<nat> {
    if point.Some? then Some(point.value + 1) else None
  }

  lemma PrependShift(before: seq<nat>, d: nat, ds: seq<nat>, point: Option<nat>, exponent: Option<string>)
    ensures Prepend(before + [d], ds, point, exponent) == Prepend(before, [d] + ds, Farther(point), exponent)
  {
    assert before + [d] + ds == before + ([d] + ds);
  }

  lemma MantissaRest(s: string, ds: seq<nat>, point: Option<nat>, exponent: Option<string>)
    returns (next: Option<nat>)
    requires Mantissa(s, ds, point, exponent) && point != Some(0) && ds != []
    ensures s != "" && HexDigit(s[0]) == Some(ds[0]) && s[0] != '.' && s[0] != 'p' && s[0] != 'P'
    ensures point == Farther(next) && Mantissa(s[1..], ds[1..], next, exponent)
  {
    next := if point.Some? then Some(point.value - 1) else None;
    if point == None {
      TakeDigitOff(s, ds, exponent);
    } else {
      var k := point.value;
      WritesFirst(s[..k], ds[..k]);
      Marks(s[0]);
      assert s[..k][1..] == s[1..][..k - 1] && ds[..k][1..] == ds[1..][..k - 1];
      assert s[1..][k..] == s[k + 1..] && ds[1..][k - 1..] == ds[k..];
    }
  }

  lemma MantissaMore(s: string, ds: seq<nat>, point: Option<nat>, exponent: Option<string>)
    requires s != "" && HexDigit(s[0]).Some? && Mantissa(s[1..], ds, point, exponent)
    ensures Mantissa(s, [HexDigit(s[0]).value] + ds, Farther(point), exponent)
  {
    if point == None {
      PutDigitOn(s, ds, exponent);
    } else {
      var es, k := [HexDigit(s[0]).value] + ds, point.value + 1;
      assert s[..k][1..] == s[1..][..k - 1] && es[..k][1..] == ds[..k - 1];
      WritesFirst(s[..k], es[..k]);
      assert s[1..][k..] == s[k + 1..] && es[k..] == ds[k - 1..];
    }
  }

  lemma ScanDigit(s: string, before: seq<nat>, point: Option<nat>)
    requires s != "" && HexDigit(s[0]).Some?
    ensures ScanFrom(s, before, point) == ScanFrom(s[1..], before + [HexDigit(s[0]).value], point)
  {
    Marks(s[0]);
  }

  lemma AcceptedDigit(s: string, before: seq<nat>, point: Option<nat>) returns (d: nat)
    requires ScanFrom(s, before, point).Scan? && !AtTail(s) && (s[0] == '.' ==> point.Some?)
    ensures HexDigit(s[0]) == Some(d) && ScanFrom(s, before, point) == ScanFrom(s[1..], before + [d], point)
  {
    d := HexDigit(s[0]).value;
  }

  predicate AtTail(s: string) {
    s == "" || s[0] == 'p' || s[0] == 'P'
  }

  lemma ScanTail(s: string, before: seq<nat>, point: Option<nat>) returns (exponent: Option<string>)
    requires AtTail(s)
    ensures ScanFrom(s, before, point) == Scan(before + [], point, exponent) && Fraction(s, [], exponent)
  {
    exponent := if s == "" then None else Some(s[1..]);
    assert s[..0] == "" && s[0..] == s && before + [] == before;
  }

  /** And nothing else is accepted. */
  lemma {:induction false} FractionOnly(s: string, before: seq<nat>, k: nat)
    returns (ds: seq<nat>, exponent: Option<string>)
    requires ScanFrom(s, before, Some(k)).Scan?
    ensures ScanFrom(s, before, Some(k)) == Scan(before + ds, Some(k), exponent) && Fraction(s, ds, exponent)
    decreases |s|
  {
    if AtTail(s) {
      ds := [];
      exponent := ScanTail(s, before, Some(k));
    } else {
      var d := AcceptedDigit(s, before, Some(k));
      ds, exponent := FractionOnly(s[1..], before + [d], k);
      PutDigitOn(s, ds, exponent);
      ds := AfterOne(before, d, ds);
    }
  }

  lemma AfterOne(before: seq<nat>, d: nat, ds: seq<nat>) returns (es: seq<nat>)
    ensures es == [d] + ds && before + [d] + ds == before + es
  {
    es := [d] + ds;
  }

  lemma {:induction false} MantissaOnly(s: string, before: seq<nat>)
    returns (ds: seq<nat>, point: Option<nat>, exponent: Option<string>)
    requires ScanFrom(s, before, None).Scan?
    ensures ScanFrom(s, before, None) == Prepend(before, ds, point, exponent) && Mantissa(s, ds, point, exponent)
    decreases |s|
  {
    if AtTail(s) {
      ds, point := [], None;
      exponent := ScanTail(s, before, None);
    } else if s[0] == '.' {
      ds, exponent := FractionOnly(s[1..], before, |before|);
      point := Some(0);
      StartsWithPoint(s, ds, exponent);
    } else {
      var d := AcceptedDigit(s, before, None);
      ds, point, exponent := MantissaOnly(s[1..], before + [d]);
      MantissaMore(s, ds, point, exponent);
      PrependShift(before, d, ds, point, exponent);
      ds, point := [d] + ds, Farther(point);
    }
  }

  lemma StartsWithPoint(s: string, ds: seq<nat>, exponent: Option<string>)
    requires s != "" && s[0] == '.'
    ensures Mantissa(s, ds, Some(0), exponent) <==> Fraction(s[1..], ds, exponent)
  {
    assert s[..0] == "" && ds[..0] == [] && ds[0..] == ds && s[0 + 1..] == s[1..];
  }

  /** The scanner accepts the grammar, and nothing else. */
  lemma ScanExact(s: string, ds: seq<nat>, point: Option<nat>, exponent: Option<string>)
    ensures ScanFrom(s, [], None) == Scan(ds, point, exponent) <==> Mantissa(s, ds, point, exponent)
  {
    if Mantissa(s, ds, point, exponent) {
      MantissaScan(s, [], ds, point, exponent);
      NothingBefore(ds, point, exponent);
    } else if ScanFrom(s, [], None).Scan? {
      var es, p, x := MantissaOnly(s, []);
      NothingBefore(es, p, x);
    }
  }

  lemma NothingBefore(ds: seq<nat>, point: Option<nat>, exponent: Option<string>)
    ensures Prepend([], ds, point, exponent) == Scan(ds, point, exponent)
  {
    assert [] + ds == ds;
  }

  // -------------------------------------------------------------------- the exponent

  ghost predicate AllSpace(s: string) {
    forall i :: 0 <= i < |s| ==> IsSpace(s[i])
  }

  ghost predicate AllZeros(s: string) {
    forall i :: 0 <= i < |s| ==> s[i] == '0'
  }

  function Abs(v: int): nat {
    if v < 0 then -v else v
  }

  predicate SignOf(sign: string, v: int) {
    (sign == "-" && v <= 0) || (v >= 0 && (sign == "" || sign == "+"))
  }

  ghost predicate Numeral(spaces: string, sign: string, zeros: string, v: int) {
    AllSpace(spaces) && SignOf(sign, v) && AllZeros(zeros)
  }

  function NumeralText(spaces: string, sign: string, zeros: string, v: int): string {
    spaces + (sign + (zeros + DecimalChars(Abs(v))))
  }

  /** White space, a sign, and a number in decimal with zeros in front. */
  ghost predicate IsNumeral(s: string, v: int) {
    exists spaces, sign, zeros ::
      Numeral(spaces, sign, zeros, v) && s == NumeralText(spaces, sign, zeros, v)
  }

  /** Zeros in front of a number change nothing. */
  lemma {:induction false} ZerosFirst(zeros: string, s: string)
    requires AllZeros(zeros)
    ensures Decimal(zeros + s) == Decimal(s)
    decreases |zeros| + |s|
  {
    var t := zeros + s;
    if s != "" {
      assert t[..|t| - 1] == zeros + s[..|s| - 1];
      ZerosFirst(zeros, s[..|s| - 1]);
    } else if zeros != "" {
      var n := |zeros| - 1;
      assert t[..|t| - 1] == zeros[..n] + "" && t[|t| - 1] == '0';
      ZerosFirst(zeros[..n], "");
    } else {
      assert t == s;
    }
  }

  /** A decimal number is its own digits with zeros in front. */
  lemma {:induction false} DecimalOnly(s: string) returns (zeros: string)
    requires s != "" && Decimal(s).Some?
    ensures AllZeros(zeros) && s == zeros + DecimalChars(Decimal(s).value)
    decreases |s|
  {
    var n := |s| - 1;
    var d := (s[n] - '0') as nat;
    assert s == s[..n] + [s[n]] && s[n] == '0' + d as char;
    var v := Decimal(s[..n]).value;
    if n == 0 {
      zeros := "";
      assert Decimal("") == Some(0) && s[..0] == "";
    } else {
      zeros := DecimalOnly(s[..n]);
      if v == 0 {
        zeros := s[..n];
        ZeroChars(s[..n]);
      } else {
        assert (10 * v + d) / 10 == v && (10 * v + d) % 10 == d;
      }
    }
  }

  lemma {:induction false} ZeroChars(s: string)
    requires Decimal(s) == Some(0)
    ensures AllZeros(s)
    decreases |s|
  {
    if s != "" {
      ZeroChars(s[..|s| - 1]);
    }
  }

  lemma {:induction false} SpacesFirst(spaces: string, s: string)
    requires AllSpace(spaces)
    ensures Strtol(spaces + s) == Strtol(s)
    decreases |spaces|
  {
    var t := spaces + s;
    if spaces == "" {
      assert t == s;
    } else {
      assert t[0] == spaces[0] && t[1..] == spaces[1..] + s;
      SpacesFirst(spaces[1..], s);
    }
  }

  lemma {:induction false} SpacesOff(s: string) returns (spaces: string, rest: string)
    ensures AllSpace(spaces) && s == spaces + rest && (rest != "" ==> !IsSpace(rest[0]))
    decreases |s|
  {
    if s == "" || !IsSpace(s[0]) {
      spaces, rest := "", s;
    } else {
      spaces, rest := SpacesOff(s[1..]);
      spaces := [s[0]] + spaces;
      assert s == [s[0]] + s[1..];
    }
  }

  lemma PlainNumber(zeros: string, n: nat)
    requires AllZeros(zeros)
    ensures var digits := zeros + DecimalChars(n);
      digits != "" && Decimal(digits) == Some(n) && '0' <= digits[0] <= '9'
  {
    DecimalRoundTrip(n);
    ZerosFirst(zeros, DecimalChars(n));
    assert (zeros + DecimalChars(n))[0] == if zeros == "" then DecimalChars(n)[0] else zeros[0];
  }

  /** A sign and a number. */
  lemma SignedNumber(sign: string, zeros: string, v: int)
    requires SignOf(sign, v) && AllZeros(zeros)
    ensures Strtol(sign + (zeros + DecimalChars(Abs(v)))) == Some(v)
  {
    var digits := zeros + DecimalChars(Abs(v));
    PlainNumber(zeros, Abs(v));
    SignedDigits(sign, digits, Abs(v));
  }

  lemma SignedDigits(sign: string, digits: string, n: nat)
    requires sign == "" || sign == "+" || sign == "-"
    requires digits != "" && Decimal(digits) == Some(n) && '0' <= digits[0] <= '9'
    ensures Strtol(sign + digits) == Some(if sign == "-" then -(n as int) else n)
  {
    var s := sign + digits;
    if sign == "" {
      assert s == digits;
    } else {
      assert s[0] == sign[0] && s[1..] == digits;
    }
  }

  lemma SignOff(s: string, v: int) returns (sign: string, zeros: string)
    requires Strtol(s) == Some(v) && s != "" && !IsSpace(s[0])
    ensures SignOf(sign, v) && AllZeros(zeros) && s == sign + (zeros + DecimalChars(Abs(v)))
  {
    sign := if s[0] == '-' || s[0] == '+' then s[..1] else "";
    var digits := s[|sign|..];
    assert s == sign + digits;
    zeros := DecimalOnly(digits);
  }

  /** strtol reads exactly the numerals, as the numbers they are. */
  lemma StrtolExact(s: string, v: int)
    ensures Strtol(s) == Some(v) <==> IsNumeral(s, v)
  {
    if IsNumeral(s, v) {
      var spaces, sign, zeros :| Numeral(spaces, sign, zeros, v) && s == NumeralText(spaces, sign, zeros, v);
      SignedNumber(sign, zeros, v);
      SpacesFirst(spaces, sign + (zeros + DecimalChars(Abs(v))));
    }
    if Strtol(s) == Some(v) {
      var spaces, rest := SpacesOff(s);
      SpacesFirst(spaces, rest);
      var sign, zeros := SignOff(rest, v);
      assert Numeral(spaces, sign, zeros, v) && s == NumeralText(spaces, sign, zeros, v);
    }
  }

  // ------------------------------------------------------------------ whole strings

  ghost predicate ExponentText(text: Option<string>, e: int) {
    match text
    case None => e == 0
    case Some(x) => IsNumeral(x, e)
  }

  /** `s` writes the digits `ds`, the point after `point` of them, and the exponent `e`. */
  ghost predicate Reading(s: string, ds: seq<nat>, point: Option<nat>, e: int) {
    exists text :: Mantissa(s, ds, point, text) && ExponentText(text, e)
  }

  lemma ReadingExact(s: string, ds: seq<nat>, point: Option<nat>, e: int)
    ensures var r := ScanFrom(s, [], None);
      Reading(s, ds, point, e) <==> r.Scan? && r.digits == ds && r.point == point && Exponent(r) == Some(e)
  {
    var r := ScanFrom(s, [], None);
    if Reading(s, ds, point, e) {
      var text :| Mantissa(s, ds, point, text) && ExponentText(text, e);
      ScanExact(s, ds, point, text);
      TextExact(text, e);
    }
    if r.Scan? && r.digits == ds && r.point == point && Exponent(r) == Some(e) {
      ScanExact(s, ds, point, r.exponent);
      TextExact(r.exponent, e);
    }
  }

  lemma TextExact(text: Option<string>, e: int)
    ensures ExponentText(text, e) <==> (if text == None then Some(0) else Strtol(text.value)) == Some(e)
  {
    if text.Some? {
      StrtolExact(text.value, e);
    }
  }

  /** The digits rounded once to 53 bits, times the power of two that point and exponent say;
      the bits after the mantissa are made up for by the exponent. */
  ghost predicate RoundedOnce(r: Outcome, ds: seq<nat>, point: Option<nat>, e: int) {
    var x := Accumulate(ds).xBits;
    && r.Finite? && x % 4 == 0 && r.mantissa * Pow16(x / 4) == Round53(Value(ds))
    && r.exponent == Saturated(e - 4 * (if point.Some? then |ds| - point.value else 0) + x)
  }

  lemma ScanRounded(scan: Scan, e: int)
    requires scan.Scan? && DigitsOk(scan.digits) && scan.digits != []
    requires Exponent(scan) == Some(e) && INT_MIN < e < INT_MAX
    ensures RoundedOnce(Expected(scan), scan.digits, scan.point, e)
  {
    RoundsAllDigits(scan.digits);
  }

  /** A string of the grammar with an exponent inside int is read as what it writes. */
  lemma ReadAsWritten(s: string, ds: seq<nat>, point: Option<nat>, e: int)
    requires Reading(s, ds, point, e) && ds != [] && INT_MIN < e < INT_MAX
    ensures RoundedOnce(Expected(ScanFrom(s, [], None)), ds, point, e)
  {
    ReadingExact(s, ds, point, e);
    ScanDigits(s, [], None);
    ScanRounded(ScanFrom(s, [], None), e);
  }

  /** Exponents outside int decide the result alone. */
  lemma ReadAtTheEnds(s: string, ds: seq<nat>, point: Option<nat>, e: int)
    requires Reading(s, ds, point, e) && !(INT_MIN < e < INT_MAX)
    ensures Expected(ScanFrom(s, [], None)) == if e < 0 || Value(ds) == 0 then Zero else Huge
  {
    ReadingExact(s, ds, point, e);
    ScanDigits(s, [], None);
    RoundsAllDigits(ds);
  }

  /** The documentation asks for a digit, but none is needed with a great exponent. */
  lemma DigitlessRead(n: nat)
    requires n >= INT_MAX
    ensures Expected(ScanFrom("p" + DecimalChars(n), [], None)) == Zero
  {
    var s := "p" + DecimalChars(n);
    SignedNumber("", "", n);
    assert "" + ("" + DecimalChars(n)) == DecimalChars(n) == s[1..];
    assert ScanFrom(s, [], None) == Scan([], None, Some(s[1..]));
  }

  /** What is refused: strings outside the grammar, and those without a digit, unless the
      exponent is outside int, when digits are not asked for. */
  lemma Refused(s: string)
    ensures Expected(ScanFrom(s, [], None)) == Bad <==>
            !exists ds, point, e :: Reading(s, ds, point, e) && (ds != [] || !(INT_MIN < e < INT_MAX))
  {
    var r := ScanFrom(s, [], None);
    if r.Scan? && Exponent(r).Some? {
      ReadingExact(s, r.digits, r.point, Exponent(r).value);
    }
    forall ds, point, e | Reading(s, ds, point, e)
      ensures r.Scan? && r.digits == ds && Exponent(r) == Some(e)
    {
      ReadingExact(s, ds, point, e);
    }
  }

  // -------------------------------------------------------------- what is printed

  /** Digits are printed in lower case. */
  lemma PrintsLower(d: nat)
    requires d < 16
    ensures DigitChar(d) == LOWER[d]
  {
  }

  /** No zeros are printed at the end of a fraction. */
  lemma {:induction false} NoLastZero(f: nat, n: nat)
    requires f < Pow16(n)
    ensures var ds := FractionDigits(f, n); (ds == [] <==> f == 0) && (ds != [] ==> ds[|ds| - 1] != 0)
    decreases n
  {
    if f != 0 {
      var p := Pow16(n - 1);
      var d := Quotient(f, p);
      SmallQuotient(f, p);
      NoLastZero(f - d * p, n - 1);
      var rest := FractionDigits(f - d * p, n - 1);
      assert FractionDigits(f, n) == [d] + rest;
      if rest == [] {
        assert d != 0;
      }
    }
  }

  /** A decimal number is printed without zeros in front, unless it is 0 itself. */
  lemma {:induction false} NoFirstZero(n: nat)
    ensures DecimalChars(n)[0] == '0' <==> n == 0
  {
    if n >= 10 {
      NoFirstZero(n / 10);
      assert DecimalChars(n)[0] == DecimalChars(n / 10)[0];
    }
  }

  /** The point comes after the first digit, if there are more. */
  function AfterFirst(ds: seq<nat>): Option<nat> {
    if |ds| == 1 then None else Some(1)
  }

  lemma PrintedMantissa(ds: seq<nat>, text: string)
    requires DigitsOk(ds) && ds != []
    ensures Mantissa(PrintDigits(ds, "p" + text), ds, AfterFirst(ds), Some(text))
  {
    assert ("p" + text)[1..] == text;
    ScanPrinted(ds, "p" + text);
    ScanExact(PrintDigits(ds, "p" + text), ds, AfterFirst(ds), Some(text));
  }

  /** One digit before the point, no point without a fraction, a fraction as short as can be,
      and an exponent that always has a sign. */
  lemma PrintedShape(m: nat, e: int)
    requires m < TWO53
    ensures var s, ds, text := PrintHex(m, e), PrintedDigits(m), FormatExponent(e);
      && Mantissa(s, ds, AfterFirst(ds), Some(text)) && (|ds| > 1 ==> ds[|ds| - 1] != 0)
      && text[0] == (if e < 0 then '-' else '+') && (text[1] == '0' <==> e == 0)
  {
    var ds, text := PrintedDigits(m), FormatExponent(e);
    PrintedValue(m);
    Pow16Values();
    NoLastZero(m % TWO52, 13);
    NoFirstZero(Abs(e));
    assert text[1] == DecimalChars(Abs(e))[0];
    PrintedMantissa(ds, text);
  }
}
