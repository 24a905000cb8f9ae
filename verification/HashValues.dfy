/**
  Known hashes (`runtime/hash.c`): those of 0, NaN and a string, as the tests of the hash tables
  have them. They fix the constants, the shifts and the order of the bytes.
 */
module HashValues {

  import opened Bitwise
  import opened Compare
  import opened Hash
  import opened HashMixing
  import opened MarshalFormat
  import opened MarshalGraph
  import opened MarshalTree

  lemma FinishParts(h: nat, a: nat, b: nat, c: nat, e: nat, f: nat)
    requires Xor(h, h / 0x1_0000) == a && a * 0x85ebca6b % WORD32 == b
    requires Xor(b, b / 0x2000) == c && c * 0xc2b2ae35 % WORD32 == e && Xor(e, e / 0x1_0000) == f
    ensures Finish(h) == f % 0x4000_0000
  {
  }

  // -------------------------------------------------------------------------- 0

  lemma ZeroScramble(d: nat)
    requires d == 0x0000_0001
    ensures Scramble(d) == 0xc353_9a5d
  {
    assert d * 0xcc9e2d51 % WORD32 == 0xcc9e_2d51;
    assert Rotate(0xcc9e_2d51, 0x8000, 0x2_0000) == 0x16a8_e64f;
  }

  lemma ZeroAdvance(x: nat)
    requires x == 0xc353_9a5d
    ensures Advance(x) == 0x26cf_0576
  {
    assert Rotate(x, 0x2000, 0x8_0000) == 0x734b_b86a;
  }

  lemma ZeroMix(h: nat, d: nat)
    requires h == 0 && d == 0x0000_0001
    ensures Mix(h, d) == 0x26cf_0576
  {
    ZeroScramble(d);
    XorZero(Scramble(d));
    ZeroAdvance(Xor(h, Scramble(d)));
    MixParts(h, d);
  }

  lemma ZeroFirstDigits() returns (x: Digits, y: Digits, z: Digits)
    ensures ByDigits(x, y, z, 0x26cf_0576, 0x0000_26cf, 0x26cf_23b9)
  {
    x, y := Digits(2, 6, 12, 15, 0, 5, 7, 6), Digits(0, 0, 0, 0, 2, 6, 12, 15);
    z := DigitsXor(x, y);
  }

  lemma ZeroFirst(h: nat)
    requires h == 0x26cf_0576
    ensures Xor(h, h / 0x1_0000) == 0x26cf_23b9
  {
    assert h / 0x1_0000 == 0x0000_26cf;
    var x, y, z := ZeroFirstDigits();
    XorByDigits(x, y, z, h, h / 0x1_0000, 0x26cf_23b9);
  }

  lemma ZeroSecondDigits() returns (x: Digits, y: Digits, z: Digits)
    ensures ByDigits(x, y, z, 0x9296_e853, 0x0004_94b7, 0x9292_7ce4)
  {
    x, y := Digits(9, 2, 9, 6, 14, 8, 5, 3), Digits(0, 0, 0, 4, 9, 4, 11, 7);
    z := DigitsXor(x, y);
  }

  lemma ZeroSecond(h: nat)
    requires h == 0x9296_e853
    ensures Xor(h, h / 0x2000) == 0x9292_7ce4
  {
    assert h / 0x2000 == 0x0004_94b7;
    var x, y, z := ZeroSecondDigits();
    XorByDigits(x, y, z, h, h / 0x2000, 0x9292_7ce4);
  }

  lemma ZeroThirdDigits() returns (x: Digits, y: Digits, z: Digits)
    ensures ByDigits(x, y, z, 0x87be_d334, 0x0000_87be, 0x87be_548a)
  {
    x, y := Digits(8, 7, 11, 14, 13, 3, 3, 4), Digits(0, 0, 0, 0, 8, 7, 11, 14);
    z := DigitsXor(x, y);
  }

  lemma ZeroThird(h: nat)
    requires h == 0x87be_d334
    ensures Xor(h, h / 0x1_0000) == 0x87be_548a
  {
    assert h / 0x1_0000 == 0x0000_87be;
    var x, y, z := ZeroThirdDigits();
    XorByDigits(x, y, z, h, h / 0x1_0000, 0x87be_548a);
  }

  lemma ZeroTimes(a: nat, c: nat, f: nat)
    requires a == 0x26cf_23b9 && c == 0x9292_7ce4 && f == 0x87be_548a
    ensures a * 0x85ebca6b % WORD32 == 0x9296_e853 && c * 0xc2b2ae35 % WORD32 == 0x87be_d334
    ensures f % 0x4000_0000 == 0x07be_548a
  {
  }

  lemma ZeroFinish(h: nat)
    requires h == 0x26cf_0576
    ensures Finish(h) == 0x07be_548a
  {
    ZeroFirst(h);
    ZeroSecond(0x9296_e853);
    ZeroThird(0x87be_d334);
    ZeroTimes(0x26cf_23b9, 0x9292_7ce4, 0x87be_548a);
    FinishParts(h, 0x26cf_23b9, 0x9296_e853, 0x9292_7ce4, 0x87be_d334, 0x87be_548a);
  }

  /** The hash of 0. */
  lemma HashOfZero(n: int, count: int, limit: int, seed: int)
    requires n == 0 && seed == 0 && count > 0
    ensures HashTree(count, limit, seed, IntTree(n)) == 0x07be_548a
  {
    var h, w := seed % WORD32, (2 * n + 1) % WORD32;
    assert Finish(Mix(h, w)) == 0x07be_548a by {
      ZeroMix(h, w);
      ZeroFinish(Mix(h, w));
    }
    IntegerHash(n, count, limit, seed);
  }

  // ------------------------------------------------------------------------ NaN

  lemma NaNScramble(d: nat)
    requires d == 0x7ff0_0000
    ensures Scramble(d) == 0xcc2a_ebe8
  {
    assert d * 0xcc9e2d51 % WORD32 == 0xaaf0_0000;
    assert Rotate(0xaaf0_0000, 0x8000, 0x2_0000) == 0x0000_5578;
  }

  lemma NaNAdvance(x: nat)
    requires x == 0xeae5_ee9e
    ensures Advance(x) == 0x9b77_be30
  {
    assert Rotate(x, 0x2000, 0x8_0000) == 0xbdd3_dd5c;
  }

  lemma NaNXorDigits() returns (x: Digits, y: Digits, z: Digits)
    ensures ByDigits(x, y, z, 0x26cf_0576, 0xcc2a_ebe8, 0xeae5_ee9e)
  {
    x, y := Digits(2, 6, 12, 15, 0, 5, 7, 6), Digits(12, 12, 2, 10, 14, 11, 14, 8);
    z := DigitsXor(x, y);
  }

  lemma NaNXor(a: nat, b: nat)
    requires a == 0x26cf_0576 && b == 0xcc2a_ebe8
    ensures Xor(a, b) == 0xeae5_ee9e
  {
    var x, y, z := NaNXorDigits();
    XorByDigits(x, y, z, a, b, 0xeae5_ee9e);
  }

  lemma NaNMix(h: nat, d: nat)
    requires h == 0x26cf_0576 && d == 0x7ff0_0000
    ensures Mix(h, d) == 0x9b77_be30
  {
    NaNScramble(d);
    NaNXor(h, Scramble(d));
    NaNAdvance(Xor(h, Scramble(d)));
    MixParts(h, d);
  }

  lemma NaNFirstDigits() returns (x: Digits, y: Digits, z: Digits)
    ensures ByDigits(x, y, z, 0x9b77_be30, 0x0000_9b77, 0x9b77_2547)
  {
    x, y := Digits(9, 11, 7, 7, 11, 14, 3, 0), Digits(0, 0, 0, 0, 9, 11, 7, 7);
    z := DigitsXor(x, y);
  }

  lemma NaNFirst(h: nat)
    requires h == 0x9b77_be30
    ensures Xor(h, h / 0x1_0000) == 0x9b77_2547
  {
    assert h / 0x1_0000 == 0x0000_9b77;
    var x, y, z := NaNFirstDigits();
    XorByDigits(x, y, z, h, h / 0x1_0000, 0x9b77_2547);
  }

  lemma NaNSecondDigits() returns (x: Digits, y: Digits, z: Digits)
    ensures ByDigits(x, y, z, 0x1963_9aad, 0x0000_cb1c, 0x1963_51b1)
  {
    x, y := Digits(1, 9, 6, 3, 9, 10, 10, 13), Digits(0, 0, 0, 0, 12, 11, 1, 12);
    z := DigitsXor(x, y);
  }

  lemma NaNSecond(h: nat)
    requires h == 0x1963_9aad
    ensures Xor(h, h / 0x2000) == 0x1963_51b1
  {
    assert h / 0x2000 == 0x0000_cb1c;
    var x, y, z := NaNSecondDigits();
    XorByDigits(x, y, z, h, h / 0x2000, 0x1963_51b1);
  }

  lemma NaNThirdDigits() returns (x: Digits, y: Digits, z: Digits)
    ensures ByDigits(x, y, z, 0xb228_37a5, 0x0000_b228, 0xb228_858d)
  {
    x, y := Digits(11, 2, 2, 8, 3, 7, 10, 5), Digits(0, 0, 0, 0, 11, 2, 2, 8);
    z := DigitsXor(x, y);
  }

  lemma NaNThird(h: nat)
    requires h == 0xb228_37a5
    ensures Xor(h, h / 0x1_0000) == 0xb228_858d
  {
    assert h / 0x1_0000 == 0x0000_b228;
    var x, y, z := NaNThirdDigits();
    XorByDigits(x, y, z, h, h / 0x1_0000, 0xb228_858d);
  }

  lemma NaNTimes(a: nat, c: nat, f: nat)
    requires a == 0x9b77_2547 && c == 0x1963_51b1 && f == 0xb228_858d
    ensures a * 0x85ebca6b % WORD32 == 0x1963_9aad && c * 0xc2b2ae35 % WORD32 == 0xb228_37a5
    ensures f % 0x4000_0000 == 0x3228_858d
  {
  }

  lemma NaNFinish(h: nat)
    requires h == 0x9b77_be30
    ensures Finish(h) == 0x3228_858d
  {
    NaNFirst(h);
    NaNSecond(0x1963_9aad);
    NaNThird(0xb228_37a5);
    NaNTimes(0x9b77_2547, 0x1963_51b1, 0xb228_858d);
    FinishParts(h, 0x9b77_2547, 0x1963_9aad, 0x1963_51b1, 0xb228_37a5, 0xb228_858d);
  }

  /** The hash of every NaN. */
  lemma HashOfNaN(d: Double, count: int, limit: int, seed: int)
    requires KeyOf(d) == NaN && seed == 0 && count > 0
    ensures HashTree(count, limit, seed, LeafTree(Dbl(d))) == 0x3228_858d
  {
    var steps, h := DoubleSteps(d), seed % WORD32;
    LeafWalk(LeafTree(Dbl(d)), QueueLimit(limit), count);
    NaNTests(d);
    assert Finish(Run(h, steps)) == 0x3228_858d by {
      TwoSteps(h, steps[0], steps[1]);
      ZeroMix(h, steps[0].w);
      NaNMix(Mix(h, steps[0].w), steps[1].w);
      NaNFinish(Run(h, steps));
    }
  }

  lemma TwoSteps(h: nat, a: Step, b: Step)
    ensures Run(h, [a, b]) == Turn(Turn(h, a), b)
  {
    RunStep(h, [], a);
    RunStep(h, [a], b);
    assert [] + [a] == [a] && [a] + [b] == [a, b];
  }

  // -------------------------------------------------------------- "Hello world"

  lemma HellScramble(d: nat)
    requires d == 0x6c6c_6548
    ensures Scramble(d) == 0x0153_080c
  {
    assert d * 0xcc9e2d51 % WORD32 == 0x3e89_b3c8;
    assert Rotate(0x3e89_b3c8, 0x8000, 0x2_0000) == 0xd9e4_1f44;
  }

  lemma HellAdvance(x: nat)
    requires x == 0x0153_080c
    ensures Advance(x) == 0xcb5b_ec36
  {
    assert Rotate(x, 0x2000, 0x8_0000) == 0x6101_802a;
  }

  lemma HellMix(h: nat, d: nat)
    requires h == 0 && d == 0x6c6c_6548
    ensures Mix(h, d) == 0xcb5b_ec36
  {
    HellScramble(d);
    XorZero(Scramble(d));
    HellAdvance(Xor(h, Scramble(d)));
    MixParts(h, d);
  }

  lemma OwoScramble(d: nat)
    requires d == 0x6f77_206f
    ensures Scramble(d) == 0x24bd_bc89
  {
    assert d * 0xcc9e2d51 % WORD32 == 0xade6_c61f;
    assert Rotate(0xade6_c61f, 0x8000, 0x2_0000) == 0x630f_d6f3;
  }

  lemma OwoAdvance(x: nat)
    requires x == 0xefe6_50bf
    ensures Advance(x) == 0xd8cc_6150
  {
    assert Rotate(x, 0x2000, 0x8_0000) == 0xca17_fdfc;
  }

  lemma OwoXorDigits() returns (x: Digits, y: Digits, z: Digits)
    ensures ByDigits(x, y, z, 0xcb5b_ec36, 0x24bd_bc89, 0xefe6_50bf)
  {
    x, y := Digits(12, 11, 5, 11, 14, 12, 3, 6), Digits(2, 4, 11, 13, 11, 12, 8, 9);
    z := DigitsXor(x, y);
  }

  lemma OwoXor(a: nat, b: nat)
    requires a == 0xcb5b_ec36 && b == 0x24bd_bc89
    ensures Xor(a, b) == 0xefe6_50bf
  {
    var x, y, z := OwoXorDigits();
    XorByDigits(x, y, z, a, b, 0xefe6_50bf);
  }

  lemma OwoMix(h: nat, d: nat)
    requires h == 0xcb5b_ec36 && d == 0x6f77_206f
    ensures Mix(h, d) == 0xd8cc_6150
  {
    OwoScramble(d);
    OwoXor(h, Scramble(d));
    OwoAdvance(Xor(h, Scramble(d)));
    MixParts(h, d);
  }

  lemma RldScramble(d: nat)
    requires d == 0x0064_6c72
    ensures Scramble(d) == 0x25a0_36db
  {
    assert d * 0xcc9e2d51 % WORD32 == 0x8d32_5a12;
    assert Rotate(0x8d32_5a12, 0x8000, 0x2_0000) == 0x2d09_4699;
  }

  lemma RldAdvance(x: nat)
    requires x == 0xfd6c_578b
    ensures Advance(x) == 0x9d0b_e9c5
  {
    assert Rotate(x, 0x2000, 0x8_0000) == 0x8af1_7fad;
  }

  lemma RldXorDigits() returns (x: Digits, y: Digits, z: Digits)
    ensures ByDigits(x, y, z, 0xd8cc_6150, 0x25a0_36db, 0xfd6c_578b)
  {
    x, y := Digits(13, 8, 12, 12, 6, 1, 5, 0), Digits(2, 5, 10, 0, 3, 6, 13, 11);
    z := DigitsXor(x, y);
  }

  lemma RldXor(a: nat, b: nat)
    requires a == 0xd8cc_6150 && b == 0x25a0_36db
    ensures Xor(a, b) == 0xfd6c_578b
  {
    var x, y, z := RldXorDigits();
    XorByDigits(x, y, z, a, b, 0xfd6c_578b);
  }

  lemma RldMix(h: nat, d: nat)
    requires h == 0xd8cc_6150 && d == 0x0064_6c72
    ensures Mix(h, d) == 0x9d0b_e9c5
  {
    RldScramble(d);
    RldXor(h, Scramble(d));
    RldAdvance(Xor(h, Scramble(d)));
    MixParts(h, d);
  }

  lemma LengthDigits() returns (x: Digits, y: Digits, z: Digits)
    ensures ByDigits(x, y, z, 0x9d0b_e9c5, 0x0000_000b, 0x9d0b_e9ce)
  {
    x, y := Digits(9, 13, 0, 11, 14, 9, 12, 5), Digits(0, 0, 0, 0, 0, 0, 0, 11);
    z := DigitsXor(x, y);
  }

  lemma Length(a: nat, b: nat)
    requires a == 0x9d0b_e9c5 && b == 0x0000_000b
    ensures Xor(a, b) == 0x9d0b_e9ce
  {
    var x, y, z := LengthDigits();
    XorByDigits(x, y, z, a, b, 0x9d0b_e9ce);
  }

  lemma HelloFirstDigits() returns (x: Digits, y: Digits, z: Digits)
    ensures ByDigits(x, y, z, 0x9d0b_e9ce, 0x0000_9d0b, 0x9d0b_74c5)
  {
    x, y := Digits(9, 13, 0, 11, 14, 9, 12, 14), Digits(0, 0, 0, 0, 9, 13, 0, 11);
    z := DigitsXor(x, y);
  }

  lemma HelloFirst(h: nat)
    requires h == 0x9d0b_e9ce
    ensures Xor(h, h / 0x1_0000) == 0x9d0b_74c5
  {
    assert h / 0x1_0000 == 0x0000_9d0b;
    var x, y, z := HelloFirstDigits();
    XorByDigits(x, y, z, h, h / 0x1_0000, 0x9d0b_74c5);
  }

  lemma HelloSecondDigits() returns (x: Digits, y: Digits, z: Digits)
    ensures ByDigits(x, y, z, 0x37c4_4057, 0x0001_be22, 0x37c5_fe75)
  {
    x, y := Digits(3, 7, 12, 4, 4, 0, 5, 7), Digits(0, 0, 0, 1, 11, 14, 2, 2);
    z := DigitsXor(x, y);
  }

  lemma HelloSecond(h: nat)
    requires h == 0x37c4_4057
    ensures Xor(h, h / 0x2000) == 0x37c5_fe75
  {
    assert h / 0x2000 == 0x0001_be22;
    var x, y, z := HelloSecondDigits();
    XorByDigits(x, y, z, h, h / 0x2000, 0x37c5_fe75);
  }

  lemma HelloThirdDigits() returns (x: Digits, y: Digits, z: Digits)
    ensures ByDigits(x, y, z, 0xb64b_3439, 0x0000_b64b, 0xb64b_8272)
  {
    x, y := Digits(11, 6, 4, 11, 3, 4, 3, 9), Digits(0, 0, 0, 0, 11, 6, 4, 11);
    z := DigitsXor(x, y);
  }

  lemma HelloThird(h: nat)
    requires h == 0xb64b_3439
    ensures Xor(h, h / 0x1_0000) == 0xb64b_8272
  {
    assert h / 0x1_0000 == 0x0000_b64b;
    var x, y, z := HelloThirdDigits();
    XorByDigits(x, y, z, h, h / 0x1_0000, 0xb64b_8272);
  }

  lemma HelloTimes(a: nat, c: nat, f: nat)
    requires a == 0x9d0b_74c5 && c == 0x37c5_fe75 && f == 0xb64b_8272
    ensures a * 0x85ebca6b % WORD32 == 0x37c4_4057 && c * 0xc2b2ae35 % WORD32 == 0xb64b_3439
    ensures f % 0x4000_0000 == 0x364b_8272
  {
  }

  lemma HelloFinish(h: nat)
    requires h == 0x9d0b_e9ce
    ensures Finish(h) == 0x364b_8272
  {
    HelloFirst(h);
    HelloSecond(0x37c4_4057);
    HelloThird(0xb64b_3439);
    HelloTimes(0x9d0b_74c5, 0x37c5_fe75, 0xb64b_8272);
    FinishParts(h, 0x9d0b_74c5, 0x37c4_4057, 0x37c5_fe75, 0xb64b_3439, 0xb64b_8272);
  }

  const HELLO: seq<byte> := [0x48, 0x65, 0x6c, 0x6c, 0x6f, 0x20, 0x77, 0x6f, 0x72, 0x6c, 0x64]

  /** The words of the string: two whole ones and the rest. */
  lemma HelloSteps(s: seq<byte>)
    requires s == HELLO
    ensures ByteSteps(s) == [MixWord(0x6c6c_6548), MixWord(0x6f77_206f), MixWord(0x0064_6c72)]
  {
    var s1 := s[4..];
    var s2 := s1[4..];
    assert Word(s[..4]) == 0x6c6c_6548 && Word(s1[..4]) == 0x6f77_206f && TailWord(s2) == 0x0064_6c72;
    assert ByteSteps(s2) == [MixWord(0x0064_6c72)];
    assert ByteSteps(s1) == [MixWord(0x6f77_206f)] + ByteSteps(s2);
    assert ByteSteps(s) == [MixWord(0x6c6c_6548)] + ByteSteps(s1);
  }

  lemma HelloRun(h: nat, a: nat, b: nat, c: nat, d: nat)
    requires h == 0 && a == 0x6c6c_6548 && b == 0x6f77_206f && c == 0x0064_6c72 && d == 11
    ensures Xor(Mix(Mix(Mix(h, a), b), c), d) == 0x9d0b_e9ce
  {
    HellMix(h, a);
    OwoMix(Mix(h, a), b);
    RldMix(Mix(Mix(h, a), b), c);
    Length(Mix(Mix(Mix(h, a), b), c), d);
  }

  lemma FourSteps(h: nat, a: Step, b: Step, c: Step, d: Step)
    ensures Run(h, [a, b, c, d]) == Turn(Turn(Turn(Turn(h, a), b), c), d)
  {
    RunStep(h, [], a);
    RunStep(h, [a], b);
    RunStep(h, [a, b], c);
    RunStep(h, [a, b, c], d);
    assert [] + [a] == [a] && [a] + [b] == [a, b] && [a, b] + [c] == [a, b, c] && [a, b, c] + [d] == [a, b, c, d];
  }

  /** The hash of "Hello world". */
  lemma HashOfHello(s: seq<byte>, count: int, limit: int, seed: int)
    requires s == HELLO && seed == 0 && count > 0
    ensures HashTree(count, limit, seed, LeafTree(Str(s))) == 0x364b_8272
  {
    var steps, h := ByteSteps(s) + [XorWord(|s| % WORD32)], seed % WORD32;
    LeafWalk(LeafTree(Str(s)), QueueLimit(limit), count);
    HelloSteps(s);
    assert Finish(Run(h, steps)) == 0x364b_8272 by {
      var a, b, c, d := steps[0], steps[1], steps[2], steps[3];
      assert steps == [a, b, c, d];
      FourSteps(h, a, b, c, d);
      HelloRun(h, a.w, b.w, c.w, d.w);
      HelloFinish(Run(h, steps));
    }
  }
}
