/**
  What the hash function keeps of the values it mixes (`runtime/hash.c`): every step can be
  undone, so that two values that differ in one word have different rolling hashes, and
  nothing is lost before the fold to 30 bits.
 */
module HashMixing {

  import opened Arithmetic
  import opened Bitwise
  import opened Compare
  import opened Hash
  import opened MarshalFormat
  import opened MarshalTree

  // --------------------------------------------------------------- undoing the steps

  lemma WordIsPow2()
    ensures WORD32 == Pow2(32) && Pow2(16) == 0x1_0000 && Pow2(13) == 0x2000
  {
    assert Pow2(8) == 0x100;
    Pow2Sum(8, 8);
    Pow2Sum(16, 16);
    Pow2Sum(8, 5);
  }

  lemma ModuloProduct(x: nat, y: nat)
    ensures x % WORD32 * y % WORD32 == x * y % WORD32
  {
    var q, r := x / WORD32, x % WORD32;
    Divides(x, WORD32);
    Distribute(q * WORD32, r, y);
    Regroup(q, WORD32, y);
    Regroup(q, y, WORD32);
    assert WORD32 * y == y * WORD32;
    Wraps(q * y, r * y);
  }

  lemma Wraps(k: nat, x: nat)
    ensures (k * WORD32 + x) % WORD32 == x % WORD32
  {
    var q, r := x / WORD32, x % WORD32;
    Divides(x, WORD32);
    Distribute(k, q, WORD32);
    DivideUnique(k * WORD32 + x, WORD32, k + q, r);
  }

  /** Multiplication by an odd constant is undone by multiplication by its inverse. */
  lemma TimesBack(d: nat, factor: nat, inverse: nat, t: nat)
    requires d < WORD32 && factor * inverse == t * WORD32 + 1
    ensures d * factor % WORD32 * inverse % WORD32 == d
  {
    ModuloProduct(d * factor, inverse);
    Regroup(d, factor, inverse);
    TimesOne(d, t, factor * inverse);
  }

  lemma TimesOne(d: nat, t: nat, one: nat)
    requires d < WORD32 && one == t * WORD32 + 1
    ensures d * one % WORD32 == d
  {
    Distribute(t * WORD32, 1, d);
    Regroup(d, t, WORD32);
    assert d * one == one * d && t * WORD32 * d == d * (t * WORD32);
    Wraps(d * t, d);
  }

  lemma TimesInjective(d: nat, e: nat, factor: nat, inverse: nat, t: nat)
    requires d < WORD32 && e < WORD32 && factor * inverse == t * WORD32 + 1
    requires d * factor % WORD32 == e * factor % WORD32
    ensures d == e
  {
    TimesBack(d, factor, inverse, t);
    TimesBack(e, factor, inverse, t);
  }

  /** A rotation exchanges two parts of a word. */
  lemma RotateParts(x: nat, up: nat, down: nat)
    requires x < WORD32 && up * down == WORD32 && up > 0 && down > 0
    ensures Rotate(x, up, down) == x % down * up + x / down && x / down < up
  {
    var q, r := x / down, x % down;
    Divides(x, down);
    if q >= up {
      Monotone(up, q, down);
    }
    Distribute(q * down, r, up);
    Regroup(q, down, up);
    assert down * up == WORD32;
    Successors(r, down, up);
    DivideUnique(x * up, WORD32, q, r * up);
  }

  lemma RotateInjective(x: nat, y: nat, up: nat, down: nat)
    requires x < WORD32 && y < WORD32 && up * down == WORD32 && up > 0 && down > 0
    requires Rotate(x, up, down) == Rotate(y, up, down)
    ensures x == y
  {
    RotateParts(x, up, down);
    RotateParts(y, up, down);
    DivideUnique(Rotate(x, up, down), up, x % down, x / down);
    DivideUnique(Rotate(y, up, down), up, y % down, y / down);
    Divides(x, down);
    Divides(y, down);
  }

  lemma RotateBound(x: nat, up: nat, down: nat)
    requires x < WORD32 && up * down == WORD32 && up > 0 && down > 0
    ensures Rotate(x, up, down) < WORD32
  {
    RotateParts(x, up, down);
    Successors(x % down, down, up);
  }

  // ------------------------------------------------------------------------ MIX

  /** What MIX makes of the word before it goes into the hash. */
  function Scramble(d: nat): nat {
    Rotate(d * 0xcc9e2d51 % WORD32, 0x8000, 0x2_0000) * 0x1b873593 % WORD32
  }

  lemma ScrambleInjective(d: nat, e: nat)
    requires d < WORD32 && e < WORD32 && Scramble(d) == Scramble(e)
    ensures d == e
  {
    var x, y := d * 0xcc9e2d51 % WORD32, e * 0xcc9e2d51 % WORD32;
    RotateBound(x, 0x8000, 0x2_0000);
    RotateBound(y, 0x8000, 0x2_0000);
    TimesInjective(Rotate(x, 0x8000, 0x2_0000), Rotate(y, 0x8000, 0x2_0000), 0x1b873593, 0x56ed309b, 156822886);
    RotateInjective(x, y, 0x8000, 0x2_0000);
    TimesInjective(d, e, 0xcc9e2d51, 0xdee13bb1, 2988782088);
  }

  /** What it makes of the hash afterwards. */
  function Advance(x: nat): nat {
    (Rotate(x, 0x2000, 0x8_0000) * 5 + 0xe6546b64) % WORD32
  }

  lemma AdvanceInjective(x: nat, y: nat)
    requires x < WORD32 && y < WORD32 && Advance(x) == Advance(y)
    ensures x == y
  {
    var u, v := Rotate(x, 0x2000, 0x8_0000), Rotate(y, 0x2000, 0x8_0000);
    RotateBound(x, 0x2000, 0x8_0000);
    RotateBound(y, 0x2000, 0x8_0000);
    AddCancels(u * 5, v * 5, 0xe6546b64);
    TimesInjective(u, v, 5, 0xcccccccd, 4);
    RotateInjective(x, y, 0x2000, 0x8_0000);
  }

  lemma AddCancels(a: nat, b: nat, c: nat)
    requires (a + c) % WORD32 == (b + c) % WORD32
    ensures a % WORD32 == b % WORD32
  {
  }

  lemma MixParts(h: nat, d: nat)
    ensures Mix(h, d) == Advance(Xor(h, Scramble(d))) < WORD32
  {
  }

  lemma XorWord32(a: nat, b: nat)
    requires a < WORD32 && b < WORD32
    ensures Xor(a, b) < WORD32
  {
    WordIsPow2();
    XorBound(a, b, 32);
  }

  /** MIX loses nothing of the word that is mixed in. */
  lemma MixWordInjective(h: nat, d: nat, e: nat)
    requires h < WORD32 && d < WORD32 && e < WORD32 && Mix(h, d) == Mix(h, e)
    ensures d == e
  {
    MixParts(h, d);
    MixParts(h, e);
    XorWord32(h, Scramble(d));
    XorWord32(h, Scramble(e));
    AdvanceInjective(Xor(h, Scramble(d)), Xor(h, Scramble(e)));
    XorCommutes(h, Scramble(d));
    XorCommutes(h, Scramble(e));
    XorInjective(Scramble(d), Scramble(e), h);
    ScrambleInjective(d, e);
  }

  /** Nor of the hash so far. */
  lemma MixHashInjective(h: nat, g: nat, d: nat)
    requires h < WORD32 && g < WORD32 && Mix(h, d) == Mix(g, d)
    ensures h == g
  {
    MixParts(h, d);
    MixParts(g, d);
    XorWord32(h, Scramble(d));
    XorWord32(g, Scramble(d));
    AdvanceInjective(Xor(h, Scramble(d)), Xor(g, Scramble(d)));
    XorInjective(h, g, Scramble(d));
  }

  // ------------------------------------------------------------------ FINAL_MIX

  lemma ShiftXor16(a: nat, b: nat)
    requires Xor(a, a / 0x1_0000) == Xor(b, b / 0x1_0000)
    ensures a == b
  {
    WordIsPow2();
    ShiftedIs(a, 16, 0x1_0000);
    ShiftedIs(b, 16, 0x1_0000);
    XorShiftInjective(a, b, 16);
  }

  lemma ShiftXor13(a: nat, b: nat)
    requires Xor(a, a / 0x2000) == Xor(b, b / 0x2000)
    ensures a == b
  {
    WordIsPow2();
    ShiftedIs(a, 13, 0x2000);
    ShiftedIs(b, 13, 0x2000);
    XorShiftInjective(a, b, 13);
  }

  lemma ShiftXorBound(a: nat, p: nat)
    requires a < WORD32 && p > 0
    ensures Xor(a, a / p) < WORD32
  {
    Divides(a, p);
    Monotone(1, p, a / p);
    XorWord32(a, a / p);
  }

  /** The two rounds of FINAL_MIX. */
  function FirstRound(h: nat): nat {
    Xor(h, h / 0x1_0000) * 0x85ebca6b % WORD32
  }

  function SecondRound(h: nat): nat {
    Xor(h, h / 0x2000) * 0xc2b2ae35 % WORD32
  }

  lemma FirstInjective(h: nat, g: nat)
    requires h < WORD32 && g < WORD32 && FirstRound(h) == FirstRound(g)
    ensures h == g
  {
    ShiftXorBound(h, 0x1_0000);
    ShiftXorBound(g, 0x1_0000);
    TimesInjective(Xor(h, h / 0x1_0000), Xor(g, g / 0x1_0000), 0x85ebca6b, 0xa5cb9243, 1455126516);
    ShiftXor16(h, g);
  }

  lemma SecondInjective(h: nat, g: nat)
    requires h < WORD32 && g < WORD32 && SecondRound(h) == SecondRound(g)
    ensures h == g
  {
    ShiftXorBound(h, 0x2000);
    ShiftXorBound(g, 0x2000);
    TimesInjective(Xor(h, h / 0x2000), Xor(g, g / 0x2000), 0xc2b2ae35, 0x7ed1b41d, 1618177690);
    ShiftXor13(h, g);
  }

  /** Before the fold to 30 bits the final mix loses nothing. */
  lemma FinalMixInjective(h: nat, g: nat)
    requires h < WORD32 && g < WORD32 && FinalMix(h) == FinalMix(g)
    ensures h == g
  {
    ShiftXor16(SecondRound(FirstRound(h)), SecondRound(FirstRound(g)));
    SecondInjective(FirstRound(h), FirstRound(g));
    FirstInjective(h, g);
  }

  // ---------------------------------------------------------------- whole runs

  ghost predicate StepsOk(steps: seq<Step>) {
    forall i :: 0 <= i < |steps| ==> steps[i].w < WORD32
  }

  lemma {:induction false} RunBound(h: nat, steps: seq<Step>)
    requires h < WORD32 && StepsOk(steps)
    ensures Run(h, steps) < WORD32
    decreases |steps|
  {
    if steps != [] {
      var n := |steps| - 1;
      RunBound(h, steps[..n]);
      if steps[n].MixWord? {
        MixParts(Run(h, steps[..n]), steps[n].w);
      } else {
        XorWord32(Run(h, steps[..n]), steps[n].w);
      }
    }
  }

  /** No step loses anything of the hash so far. */
  lemma {:induction false} RunInjective(h: nat, g: nat, steps: seq<Step>)
    requires h < WORD32 && g < WORD32 && StepsOk(steps) && Run(h, steps) == Run(g, steps)
    ensures h == g
    decreases |steps|
  {
    if steps != [] {
      var n := |steps| - 1;
      var a, b, s := Run(h, steps[..n]), Run(g, steps[..n]), steps[n];
      RunBound(h, steps[..n]);
      RunBound(g, steps[..n]);
      if s.MixWord? {
        MixHashInjective(a, b, s.w);
      } else {
        XorInjective(a, b, s.w);
      }
      RunInjective(h, g, steps[..n]);
    }
  }

  /** Steps that differ in one word lead to different hashes. */
  lemma OneWordDiffers(h: nat, before: seq<Step>, w: nat, w': nat, after: seq<Step>)
    requires h < WORD32 && StepsOk(before) && StepsOk(after) && w < WORD32 && w' < WORD32 && w != w'
    ensures Run(h, before + [MixWord(w)] + after) != Run(h, before + [MixWord(w')] + after)
    ensures FinalMix(Run(h, before + [MixWord(w)] + after)) != FinalMix(Run(h, before + [MixWord(w')] + after))
  {
    var g := Run(h, before);
    RunBound(h, before);
    RunStep(h, before, MixWord(w));
    RunStep(h, before, MixWord(w'));
    MixParts(g, w);
    MixParts(g, w');
    var x, y := Mix(g, w), Mix(g, w');
    if x == y {
      MixWordInjective(g, w, w');
    }
    RunAppend(h, before + [MixWord(w)], after);
    RunAppend(h, before + [MixWord(w')], after);
    RunBound(x, after);
    RunBound(y, after);
    if Run(x, after) == Run(y, after) {
      RunInjective(x, y, after);
    }
    if FinalMix(Run(x, after)) == FinalMix(Run(y, after)) {
      FinalMixInjective(Run(x, after), Run(y, after));
    }
  }

  // ------------------------------------------------------------------- integers

  /** On integers of 32 bits the word is the integer itself, as on a 32-bit machine. */
  lemma IntWordIs(d: int)
    requires -0x8000_0000 <= d < 0x8000_0000
    ensures IntWord(d) == d % WORD32
  {
    var sign := if d < 0 then WORD32 - 1 else 0;
    HighIsSign(d, sign);
    SignCancels(sign, d % WORD32);
  }

  lemma HighIsSign(d: int, sign: nat)
    requires -0x8000_0000 <= d < 0x8000_0000 && sign == if d < 0 then WORD32 - 1 else 0
    ensures d / WORD32 % WORD32 == sign
  {
  }

  lemma {:induction false} SignCancels(sign: nat, low: nat)
    ensures Xor(Xor(sign, sign), low) == low
  {
    XorSame(sign);
    XorZero(low);
  }

  ghost function Rolling(count: int, limit: int, seed: int, t: Tree): nat {
    Run(seed % WORD32, Hash.Walk([t], 1, QueueLimit(limit), count))
  }

  /** Different integers of 31 bits hash differently, up to the fold. */
  lemma IntegersDiffer(count: int, limit: int, seed: int, m: int, n: int)
    requires count > 0 && -0x4000_0000 <= m < 0x4000_0000 && -0x4000_0000 <= n < 0x4000_0000 && m != n
    ensures FinalMix(Rolling(count, limit, seed, IntTree(m))) != FinalMix(Rolling(count, limit, seed, IntTree(n)))
  {
    var v := IntegerWalk(m, QueueLimit(limit), count);
    var w := IntegerWalk(n, QueueLimit(limit), count);
    WordsDiffer(m, n);
    OneWordDiffers(seed % WORD32, [], v, w, []);
  }

  lemma IntegerWalk(n: int, sz: nat, num: int) returns (w: nat)
    requires num > 0 && -0x4000_0000 <= n < 0x4000_0000
    ensures w == (2 * n + 1) % WORD32 && Hash.Walk([IntTree(n)], 1, sz, num) == [] + [MixWord(w)] + []
  {
    w := (2 * n + 1) % WORD32;
    IntWordIs(2 * n + 1);
    LeafWalk(IntTree(n), sz, num);
  }

  /** An integer goes into the hash as one word. */
  lemma IntegerHash(n: int, count: int, limit: int, seed: int)
    requires count > 0 && -0x4000_0000 <= n < 0x4000_0000
    ensures HashTree(count, limit, seed, IntTree(n)) == Finish(Mix(seed % WORD32, (2 * n + 1) % WORD32))
  {
    var w := IntegerWalk(n, QueueLimit(limit), count);
    assert [] + [MixWord(w)] + [] == [] + [MixWord(w)];
    RunStep(seed % WORD32, [], MixWord(w));
  }

  lemma WordsDiffer(m: int, n: int)
    requires -0x4000_0000 <= m < 0x4000_0000 && -0x4000_0000 <= n < 0x4000_0000 && m != n
    ensures (2 * m + 1) % WORD32 != (2 * n + 1) % WORD32
  {
    assert (2 * m + 1) % WORD32 == if m < 0 then 2 * m + 1 + WORD32 else 2 * m + 1;
    assert (2 * n + 1) % WORD32 == if n < 0 then 2 * n + 1 + WORD32 else 2 * n + 1;
  }

  /** A value without fields is all there is to walk. */
  lemma LeafWalk(t: Tree, sz: nat, num: int)
    requires num > 0 && Kids(t) == []
    ensures Hash.Walk([t], 1, sz, num) == HashHead(t, num).0
  {
    Hash.WalkStep([t], 1, sz, num);
    assert Next([t], 1, sz) == [];
    assert HashHead(t, num).0 + [] == HashHead(t, num).0;
  }

  // --------------------------------------------------------------------- strings

  lemma LowByte(b: nat, rest: nat, c: nat, rest': nat)
    requires b < 0x100 && c < 0x100 && b + 0x100 * rest == c + 0x100 * rest'
    ensures b == c && rest == rest'
  {
  }

  lemma WordDetermines(s: seq<byte>, t: seq<byte>)
    requires |s| == 4 && |t| == 4 && Word(s) == Word(t)
    ensures s == t
  {
    var s3, s2, s1 := s[3] as nat, s[2] as nat, s[1] as nat;
    var t3, t2, t1 := t[3] as nat, t[2] as nat, t[1] as nat;
    LowByte(s[0], s1 + 0x100 * (s2 + 0x100 * s3), t[0], t1 + 0x100 * (t2 + 0x100 * t3));
    LowByte(s1, s2 + 0x100 * s3, t1, t2 + 0x100 * t3);
    LowByte(s2, s3, t2, t3);
  }

  /** The last bytes, filled up with zeros. */
  lemma TailDetermines(s: seq<byte>, t: seq<byte>)
    requires |s| == |t| < 4 && TailWord(s) == TailWord(t)
    ensures s == t
  {
    var pad := seq(4 - |s|, _ => 0 as byte);
    TailPadded(s, pad);
    TailPadded(t, pad);
    WordDetermines(s + pad, t + pad);
    assert s == (s + pad)[..|s|] && t == (t + pad)[..|t|];
  }

  lemma TailPadded(s: seq<byte>, pad: seq<byte>)
    requires |s| < 4 && pad == seq(4 - |s|, _ => 0)
    ensures TailWord(s) == Word(s + pad)
  {
    var p := s + pad;
    assert forall i :: 0 <= i < 4 ==> p[i] == if i < |s| then s[i] else 0;
  }

  lemma {:induction false} BytesDetermine(s: seq<byte>, t: seq<byte>)
    requires |s| == |t| && ByteSteps(s) == ByteSteps(t)
    ensures s == t
    decreases |s|
  {
    if |s| >= 4 {
      var a, b := [MixWord(Word(s[..4]))] + ByteSteps(s[4..]), [MixWord(Word(t[..4]))] + ByteSteps(t[4..]);
      assert a == b && a[0] == b[0] && a[1..] == ByteSteps(s[4..]) && b[1..] == ByteSteps(t[4..]);
      WordDetermines(s[..4], t[..4]);
      BytesDetermine(s[4..], t[4..]);
      assert s == s[..4] + s[4..] && t == t[..4] + t[4..];
    } else if |s| > 0 {
      assert ByteSteps(s)[0] == ByteSteps(t)[0];
      TailDetermines(s, t);
    }
  }

  lemma {:induction false} StepCount(s: seq<byte>)
    ensures |s| <= 4 * |ByteSteps(s)| < |s| + 4
    decreases |s|
  {
    if |s| >= 4 {
      StepCount(s[4..]);
    }
  }

  /** The steps of a string, its length included, determine the string. */
  lemma {:induction false} StringDetermined(s: seq<byte>, t: seq<byte>)
    requires ByteSteps(s) + [XorWord(|s| % WORD32)] == ByteSteps(t) + [XorWord(|t| % WORD32)]
    ensures s == t
  {
    var a, b := ByteSteps(s) + [XorWord(|s| % WORD32)], ByteSteps(t) + [XorWord(|t| % WORD32)];
    assert |a| == |b| && a[|a| - 1] == b[|b| - 1];
    assert a[..|a| - 1] == ByteSteps(s) && b[..|b| - 1] == ByteSteps(t);
    StepCount(s);
    StepCount(t);
    SameLength(|s|, |t|, |ByteSteps(s)|);
    BytesDetermine(s, t);
  }

  lemma SameLength(m: nat, n: nat, words: nat)
    requires m <= 4 * words < m + 4 && n <= 4 * words < n + 4 && m % WORD32 == n % WORD32
    ensures m == n
  {
  }

  // --------------------------------------------------------------------- doubles

  /** The words of a double determine it up to the sign of zero and the bits of a NaN. */
  lemma DoubleDetermined(d: Double, e: Double)
    ensures DoubleSteps(d) == DoubleSteps(e) <==> KeyOf(d) == KeyOf(e)
  {
    if KeyOf(d) == KeyOf(e) {
      SameKeyMix(d, e);
    } else if DoubleSteps(d) == DoubleSteps(e) {
      NaNTests(d);
      NaNTests(e);
      if HashNaN(d) {
        OneNaN(d, e);
      } else if HashNaN(e) {
        OneNaN(e, d);
      }
    }
  }

  lemma OneNaN(d: Double, e: Double)
    requires NormalLow(d) == NormalLow(e) && NormalHigh(d) == NormalHigh(e) && HashNaN(d)
    ensures HashNaN(e)
  {
    assert EXPONENT / 0x10_0000 % 0x800 == 0x7FF;
  }

  /** The word of a header determines the tag, and the size up to its 22 low bits. */
  lemma HeaderDetermined(size: nat, tag: nat, size': nat, tag': nat)
    requires tag < 0x100 && tag' < 0x100
    ensures CleanHeader(size, tag) == CleanHeader(size', tag') <==>
            tag == tag' && size % 0x40_0000 == size' % 0x40_0000
  {
    HeaderWord(size, tag);
    HeaderWord(size', tag');
  }

  lemma HeaderWord(size: nat, tag: nat)
    requires tag < 0x100
    ensures CleanHeader(size, tag) == size % 0x40_0000 * 0x400 + tag
  {
    DivideUnique(size * 0x400 + tag, WORD32, size / 0x40_0000, size % 0x40_0000 * 0x400 + tag);
  }
}
