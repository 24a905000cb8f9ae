/**
  The writer of the marshalling format picks the shortest form (`runtime/extern.c`): whatever
  else the reader would take for the same item is at least as long, except for the integers
  that 32 bits hold and 31 do not. Numbers are written with their most significant byte first.
 */
module MarshalCompact {

  import opened Arithmetic
  import opened Common
  import opened MarshalFormat

  // --------------------------------------------------------------------- byte order

  /** Byte i from the left has the weight 256^(k - 1 - i). */
  lemma {:induction false} MostSignificantFirst(k: nat, n: nat, i: nat)
    requires i < k
    ensures BigEndian(k, n)[i] == n / Pow256(k - 1 - i) % 256
  {
    if i < k - 1 {
      MostSignificantFirst(k - 1, n / 256, i);
      DivideTwice(n, Pow256(k - 2 - i));
    }
  }

  lemma DivideTwice(n: nat, p: nat)
    requires p > 0
    ensures n / (256 * p) == n / 256 / p
  {
    var q := n / 256 / p;
    assert n / 256 == p * q + n / 256 % p;
    Assemble(p, q, n / 256 % p, n % 256);
    DivideUnique(n, 256 * p, q, 256 * (n / 256 % p) + n % 256);
  }

  lemma Assemble(p: nat, q: nat, s: nat, t: nat)
    ensures 256 * (p * q + s) + t == q * (256 * p) + (256 * s + t)
  {
  }

  // ----------------------------------------------------------------- shortest forms

  lemma {:induction false} NumberBound(s: seq<byte>)
    ensures FromBigEndian(s) < Pow256(|s|)
    decreases |s|
  {
    if s != [] {
      NumberBound(s[..|s| - 1]);
    }
  }

  /** The bytes that the reader takes for an item: a prefix alone, or a code and its number,
      and then the contents. */
  ghost predicate Forms(s: seq<byte>, t: Item) {
    ReadItem(s) == Some((t, []))
  }

  lemma IntForms(s: seq<byte>, n: int)
    requires Forms(s, IntItem(n))
    ensures |s| == 1 ==> 0 <= n < 0x40
    ensures |s| == 2 ==> -0x80 <= n < 0x80
    ensures |s| == 3 ==> -0x8000 <= n < 0x8000
    ensures |s| == 5 ==> -0x8000_0000 <= n < 0x8000_0000
    ensures |s| in {1, 2, 3, 5, 9}
  {
    PowValues();
    if s[0] < PREFIX_SMALL_STRING {
      NumberBound(s[1..][..|s| - 1]);
    }
  }

  lemma SharedForms(s: seq<byte>, d: nat)
    requires Forms(s, SharedItem(d))
    ensures |s| == 2 ==> d < 0x100
    ensures |s| == 3 ==> d < 0x1_0000
    ensures |s| == 5 ==> d < 0x1_0000_0000
    ensures |s| in {2, 3, 5, 9}
  {
    PowValues();
    NumberBound(s[1..][..|s| - 1]);
  }

  lemma BlockForms(s: seq<byte>, tag: nat, size: nat)
    requires Forms(s, BlockItem(tag, size))
    ensures |s| == 1 ==> tag < 16 && size < 8
    ensures |s| == 5 ==> tag < 0x100 && size < 0x40_0000
    ensures |s| in {1, 5, 9}
  {
    PowValues();
    if s[0] < PREFIX_SMALL_STRING {
      NumberBound(s[1..][..|s| - 1]);
    }
  }

  lemma StringForms(s: seq<byte>, bytes: seq<byte>)
    requires Forms(s, StringItem(bytes))
    ensures |s| == |bytes| + 1 ==> |bytes| < 0x20
    ensures |s| == |bytes| + 2 ==> |bytes| < 0x100
    ensures |s| == |bytes| + 5 ==> |bytes| < 0x1_0000_0000
    ensures |s| - |bytes| in {1, 2, 5, 9}
  {
    PowValues();
    if s[0] < PREFIX_SMALL_STRING {
      NumberBound(s[1..][..Width(s[0]).value]);
    }
  }

  lemma ArrayForms(s: seq<byte>, ds: seq<Double>)
    requires Forms(s, DoubleArrayItem(ds))
    ensures |s| == 8 * |ds| + 2 ==> |ds| < 0x100
    ensures |s| == 8 * |ds| + 5 ==> |ds| < 0x1_0000_0000
    ensures |s| - 8 * |ds| in {2, 5, 9}
  {
    PowValues();
    NumberBound(s[1..][..Width(s[0]).value]);
  }

  /** An integer of 32 bits and not of 31: a 32-bit machine could not hold it. */
  predicate Wide(t: Item) {
    t.IntItem? && (0x4000_0000 <= t.n < 0x8000_0000 || -0x8000_0000 <= t.n < -0x4000_0000)
  }

  lemma NoShorter(t: Item, s: seq<byte>)
    requires ItemOk(t) && Forms(s, t) && !Wide(t)
    ensures |WriteItem(t)| <= |s|
  {
    PowValues();
    match t
    case IntItem(n) => IntForms(s, n);
    case SharedItem(d) => SharedForms(s, d);
    case BlockItem(tag, size) => BlockForms(s, tag, size);
    case StringItem(bytes) => StringForms(s, bytes);
    case DoubleItem(_) =>
    case DoubleArrayItem(ds) => ArrayForms(s, ds);
  }

  lemma FiveBytes(n: int)
    requires Wide(IntItem(n))
    ensures n + Pow256(4) >= 0 && Forms(WriteCode(CODE_INT32, 4, n), IntItem(n))
  {
    PowValues();
    var s := WriteCode(CODE_INT32, 4, n);
    CodedParts(CODE_INT32, 4, n, []);
    assert s + [] == s;
    StoreSigned(4, n);
  }

  /** No other bytes that are read as the item are fewer, if and only if it is not Wide. */
  lemma ShortestExact(t: Item)
    requires ItemOk(t)
    ensures (forall s :: Forms(s, t) ==> |WriteItem(t)| <= |s|) <==> !Wide(t)
  {
    if Wide(t) {
      FiveBytes(t.n);
      PowValues();
    } else {
      forall s | Forms(s, t) ensures |WriteItem(t)| <= |s| {
        NoShorter(t, s);
      }
    }
  }
}
