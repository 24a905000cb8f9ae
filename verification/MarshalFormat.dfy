/**
  The marshalling format (`runtime/extern.c`, `runtime/intern.c`, `runtime/caml/intext.h`)
  on a 64-bit little-endian host: how each item of the stream is written, and how the
  reader tells the items apart and reads them back.
 */
module MarshalFormat {

  import opened Common

  type byte = x: int | 0 <= x < 256

  const PREFIX_SMALL_BLOCK := 0x80
  const PREFIX_SMALL_INT := 0x40
  const PREFIX_SMALL_STRING := 0x20
  const CODE_INT8 := 0x0
  const CODE_INT16 := 0x1
  const CODE_INT32 := 0x2
  const CODE_INT64 := 0x3
  const CODE_SHARED8 := 0x4
  const CODE_SHARED16 := 0x5
  const CODE_SHARED32 := 0x6
  const CODE_SHARED64 := 0x14
  const CODE_BLOCK32 := 0x8
  const CODE_BLOCK64 := 0x13
  const CODE_STRING8 := 0x9
  const CODE_STRING32 := 0xA
  const CODE_STRING64 := 0x15
  const CODE_DOUBLE_BIG := 0xB
  const CODE_DOUBLE_LITTLE := 0xC
  const CODE_DOUBLE_ARRAY8_BIG := 0xD
  const CODE_DOUBLE_ARRAY8_LITTLE := 0xE
  const CODE_DOUBLE_ARRAY32_BIG := 0xF
  const CODE_DOUBLE_ARRAY32_LITTLE := 0x7
  const CODE_DOUBLE_ARRAY64_BIG := 0x16
  const CODE_DOUBLE_ARRAY64_LITTLE := 0x17

  /** A double as its eight bytes in memory. */
  type Double = s: seq<byte> | |s| == 8 witness [0, 0, 0, 0, 0, 0, 0, 0]

  /** The items of a stream. */
  datatype Item =
    | IntItem(n: int)
    | SharedItem(distance: nat)
    | BlockItem(tag: nat, size: nat)    // size 0 is an atom
    | StringItem(bytes: seq<byte>)
    | DoubleItem(d: Double)
    | DoubleArrayItem(ds: seq<Double>)

  const INT_MIN := -0x4000_0000_0000_0000   // Min_long, 63-bit integers
  const INT_MAX := 0x3FFF_FFFF_FFFF_FFFF
  const MAX_WOSIZE := 0x3F_FFFF_FFFF_FFFF   // 54 bits

  predicate ItemOk(t: Item) {
    match t
    case IntItem(n) => INT_MIN <= n <= INT_MAX
    case SharedItem(d) => d < Pow256(8)
    case BlockItem(tag, size) => tag < 256 && size <= MAX_WOSIZE
    case StringItem(bytes) => |bytes| < Pow256(8)
    case DoubleItem(_) => true
    case DoubleArrayItem(ds) => |ds| < Pow256(8)
  }

  /** An item that the flag COMPAT_32 lets pass. */
  predicate Fits32(t: Item) {
    match t
    case IntItem(n) => -0x4000_0000 <= n < 0x4000_0000
    case BlockItem(_, size) => size <= 0x3F_FFFF
    case StringItem(bytes) => |bytes| <= 0xFF_FFFB
    case DoubleArrayItem(ds) => |ds| <= 0x1F_FFFF
    case _ => true
  }

  predicate AllFit32(items: seq<Item>) {
    forall i :: 0 <= i < |items| ==> Fits32(items[i])
  }

  // -------------------------------------------------------- big-endian numbers

  function Pow256(k: nat): (p: nat)
    ensures p > 0
  {
    if k == 0 then 1 else 256 * Pow256(k - 1)
  }

  /** store16, store32, store64 on a value already reduced to `k` bytes. */
  function BigEndian(k: nat, n: nat): (s: seq<byte>)
    ensures |s| == k
  {
    if k == 0 then [] else BigEndian(k - 1, n / 256) + [n % 256]
  }

  /** read16u, read32u, read64u. */
  function FromBigEndian(s: seq<byte>): nat {
    if s == [] then 0 else FromBigEndian(s[..|s| - 1]) * 256 + s[|s| - 1]
  }

  lemma {:induction false} BigEndianRoundTrip(k: nat, n: nat)
    requires n < Pow256(k)
    ensures FromBigEndian(BigEndian(k, n)) == n
  {
    if k > 0 {
      var s := BigEndian(k, n);
      assert s[..|s| - 1] == BigEndian(k - 1, n / 256);
      BigEndianRoundTrip(k - 1, n / 256);
    }
  }

  /** A C store of a number of `k` bytes, negative ones in two's complement. */
  function Store(k: nat, n: int): (s: seq<byte>)
    requires n + Pow256(k) >= 0
    ensures |s| == k
  {
    BigEndian(k, if n < 0 then n + Pow256(k) else n)
  }

  /** read8s, read16s, read32s, and read64u converted to intnat. */
  function FromSigned(s: seq<byte>): int {
    var n := FromBigEndian(s);
    if n < Pow256(|s|) / 2 then n else n - Pow256(|s|)
  }

  lemma StoreUnsigned(k: nat, n: nat)
    requires n < Pow256(k)
    ensures FromBigEndian(Store(k, n)) == n
  {
    BigEndianRoundTrip(k, n);
  }

  lemma StoreSigned(k: nat, n: int)
    requires k > 0 && -(Pow256(k) / 2) <= n < Pow256(k) / 2
    ensures FromSigned(Store(k, n)) == n
  {
    BigEndianRoundTrip(k, if n < 0 then n + Pow256(k) else n);
  }

  lemma PowValues()
    ensures Pow256(1) == 0x100 && Pow256(2) == 0x1_0000 && Pow256(4) == 0x1_0000_0000
    ensures Pow256(8) == 0x1_0000_0000_0000_0000
  {
    assert Pow256(3) == 0x100_0000;
    assert Pow256(4) == 0x1_0000_0000;
    assert Pow256(6) == 0x1_0000_0000_0000;
  }

  // ----------------------------------------------------------------- writing

  /** A code byte and a number of `k` bytes (writecode8, 16, 32, 64). */
  function WriteCode(code: byte, k: nat, n: int): (s: seq<byte>)
    requires n + Pow256(k) >= 0
    ensures |s| == 1 + k
  {
    [code] + Store(k, n)
  }

  /** extern_int */
  function WriteInt(n: int): seq<byte>
    requires INT_MIN <= n <= INT_MAX
  {
    PowValues();
    if 0 <= n < 0x40 then [PREFIX_SMALL_INT + n]
    else if -0x80 <= n < 0x80 then WriteCode(CODE_INT8, 1, n)
    else if -0x8000 <= n < 0x8000 then WriteCode(CODE_INT16, 2, n)
    else if n < -0x4000_0000 || n >= 0x4000_0000 then WriteCode(CODE_INT64, 8, n)
    else WriteCode(CODE_INT32, 4, n)
  }

  /** extern_shared_reference */
  function WriteShared(d: nat): seq<byte> {
    if d < 0x100 then WriteCode(CODE_SHARED8, 1, d)
    else if d < 0x1_0000 then WriteCode(CODE_SHARED16, 2, d)
    else if d >= 0x1_0000_0000 then WriteCode(CODE_SHARED64, 8, d)
    else WriteCode(CODE_SHARED32, 4, d)
  }

  /** Make_header(size, tag, NOT_MARKABLE) */
  function MakeHeader(size: nat, tag: nat): nat {
    size * 1024 + 3 * 256 + tag
  }

  /** extern_header */
  function WriteHeader(size: nat, tag: nat): seq<byte> {
    if tag < 16 && size < 8 then [PREFIX_SMALL_BLOCK + tag + size * 16]
    else if MakeHeader(size, tag) < 0x1_0000_0000 then WriteCode(CODE_BLOCK32, 4, MakeHeader(size, tag))
    else WriteCode(CODE_BLOCK64, 8, MakeHeader(size, tag))
  }

  /** The length part of extern_string. */
  function WriteStringLength(len: nat): seq<byte> {
    if len < 0x20 then [PREFIX_SMALL_STRING + len]
    else if len < 0x100 then WriteCode(CODE_STRING8, 1, len)
    else if len < 0x1_0000_0000 then WriteCode(CODE_STRING32, 4, len)
    else WriteCode(CODE_STRING64, 8, len)
  }

  /** The length part of extern_double_array. */
  function WriteDoubleCount(n: nat): seq<byte> {
    if n < 0x100 then WriteCode(CODE_DOUBLE_ARRAY8_LITTLE, 1, n)
    else if n < 0x1_0000_0000 then WriteCode(CODE_DOUBLE_ARRAY32_LITTLE, 4, n)
    else WriteCode(CODE_DOUBLE_ARRAY64_LITTLE, 8, n)
  }

  function Flatten(ds: seq<Double>): (s: seq<byte>)
    ensures |s| == 8 * |ds|
  {
    if ds == [] then [] else ds[0] + Flatten(ds[1..])
  }

  function WriteItem(t: Item): (s: seq<byte>)
    requires ItemOk(t)
  {
    match t
    case IntItem(n) => WriteInt(n)
    case SharedItem(d) => WriteShared(d)
    case BlockItem(tag, size) => WriteHeader(size, tag)
    case StringItem(bytes) => WriteStringLength(|bytes|) + bytes
    case DoubleItem(d) => [CODE_DOUBLE_LITTLE as byte] + d
    case DoubleArrayItem(ds) => WriteDoubleCount(|ds|) + Flatten(ds)
  }

  // ----------------------------------------------------------------- reading

  /** An item and the rest of the input; None when the input is ill formed or ends. */
  type Parsed = Option<(Item, seq<byte>)>

  /** read_block: the tag and size of a header, or the atom of that tag. */
  function ReadHeader(hd: nat, rest: seq<byte>): Parsed {
    Some((BlockItem(hd % 256, hd / 1024), rest))
  }

  function ReadBytes(len: nat, src: seq<byte>): Parsed {
    if |src| < len then None else Some((StringItem(src[..len]), src[len..]))
  }

  /** Reverse_64 */
  function Reverse(d: Double): Double {
    [d[7], d[6], d[5], d[4], d[3], d[2], d[1], d[0]]
  }

  function Unflatten(n: nat, s: seq<byte>, reverse: bool): (ds: seq<Double>)
    requires |s| == 8 * n
    ensures |ds| == n
  {
    if n == 0 then []
    else [if reverse then Reverse(s[..8]) else s[..8]] + Unflatten(n - 1, s[8..], reverse)
  }

  /** readfloats: on a little-endian host the bytes are reversed unless the code is
      one of the two that it compares with; CODE_DOUBLE_ARRAY64_LITTLE is not. */
  function ReadDoubles(n: nat, src: seq<byte>, code: byte): Parsed {
    if |src| < 8 * n then None
    else
      var reverse := code != CODE_DOUBLE_ARRAY8_LITTLE && code != CODE_DOUBLE_ARRAY32_LITTLE;
      Some((DoubleArrayItem(Unflatten(n, src[..8 * n], reverse)), src[8 * n..]))
  }

  function ReadDouble(src: seq<byte>, code: byte): Parsed {
    if |src| < 8 then None
    else Some((DoubleItem(if code != CODE_DOUBLE_LITTLE then Reverse(src[..8]) else src[..8]), src[8..]))
  }

  /** How many bytes of number follow a code; None for a code that is not known. */
  function Width(code: byte): Option<nat> {
    if code in {CODE_INT8, CODE_SHARED8, CODE_STRING8, CODE_DOUBLE_ARRAY8_LITTLE, CODE_DOUBLE_ARRAY8_BIG} then Some(1)
    else if code in {CODE_INT16, CODE_SHARED16} then Some(2)
    else if code in {CODE_INT32, CODE_SHARED32, CODE_BLOCK32, CODE_STRING32, CODE_DOUBLE_ARRAY32_LITTLE,
                     CODE_DOUBLE_ARRAY32_BIG} then Some(4)
    else if code in {CODE_INT64, CODE_SHARED64, CODE_BLOCK64, CODE_STRING64, CODE_DOUBLE_ARRAY64_LITTLE,
                     CODE_DOUBLE_ARRAY64_BIG} then Some(8)
    else if code in {CODE_DOUBLE_LITTLE, CODE_DOUBLE_BIG} then Some(0)
    else None
  }

  /** The codes below PREFIX_SMALL_STRING (the switch of intern_rec), their number read. */
  function ReadCoded(code: byte, s: seq<byte>, rest: seq<byte>): Parsed {
    if code in {CODE_INT8, CODE_INT16, CODE_INT32, CODE_INT64} then Some((IntItem(FromSigned(s)), rest))
    else if code in {CODE_SHARED8, CODE_SHARED16, CODE_SHARED32, CODE_SHARED64} then
      Some((SharedItem(FromBigEndian(s)), rest))
    else if code in {CODE_BLOCK32, CODE_BLOCK64} then ReadHeader(FromBigEndian(s), rest)
    else if code in {CODE_STRING8, CODE_STRING32, CODE_STRING64} then ReadBytes(FromBigEndian(s), rest)
    else if code in {CODE_DOUBLE_LITTLE, CODE_DOUBLE_BIG} then ReadDouble(rest, code)
    else ReadDoubles(FromBigEndian(s), rest, code)
  }

  function ReadItem(src: seq<byte>): Parsed {
    if src == [] then None
    else
      var code, rest := src[0], src[1..];
      if code >= PREFIX_SMALL_BLOCK then Some((BlockItem(code % 16, code / 16 % 8), rest))
      else if code >= PREFIX_SMALL_INT then Some((IntItem(code % 64), rest))
      else if code >= PREFIX_SMALL_STRING then ReadBytes(code % 32, rest)
      else
        var k := Width(code);
        if k.None? || |rest| < k.value then None else ReadCoded(code, rest[..k.value], rest[k.value..])
  }

  // ------------------------------------------------------------- round trips

  /** What the reader makes of an item: itself, except for float arrays long enough
      to need a 64-bit count, whose doubles come back byte-reversed. */
  function Reread(t: Item): Item {
    if t.DoubleArrayItem? && |t.ds| >= 0x1_0000_0000 then DoubleArrayItem(ReverseAll(t.ds)) else t
  }

  function ReverseAll(ds: seq<Double>): (r: seq<Double>)
    ensures |r| == |ds|
  {
    seq(|ds|, i requires 0 <= i < |ds| => Reverse(ds[i]))
  }

  /** A coded number followed by anything reads as its code, its bytes and the rest. */
  lemma CodedParts(code: byte, k: nat, n: int, rest: seq<byte>)
    requires n + Pow256(k) >= 0
    ensures var src := WriteCode(code, k, n) + rest;
      src[0] == code && src[1..][..k] == Store(k, n) && src[1..][k..] == rest && |src[1..]| >= k
  {
  }

  function IntWidth(n: int): nat {
    if -0x80 <= n < 0x80 then 1 else if -0x8000 <= n < 0x8000 then 2
    else if n < -0x4000_0000 || n >= 0x4000_0000 then 8 else 4
  }

  lemma IntRoundTrip(n: int, rest: seq<byte>)
    requires INT_MIN <= n <= INT_MAX
    ensures ReadItem(WriteInt(n) + rest) == Some((IntItem(n), rest))
  {
    PowValues();
    if 0 <= n < 0x40 {
      assert (WriteInt(n) + rest)[1..] == rest;
    } else {
      var k := IntWidth(n);
      CodedParts(WriteInt(n)[0], k, n, rest);
      StoreSigned(k, n);
    }
  }

  function NatWidth(d: nat): nat {
    if d < 0x100 then 1 else if d < 0x1_0000 then 2 else if d < 0x1_0000_0000 then 4 else 8
  }

  lemma SharedRoundTrip(d: nat, rest: seq<byte>)
    requires d < Pow256(8)
    ensures ReadItem(WriteShared(d) + rest) == Some((SharedItem(d), rest))
  {
    PowValues();
    CodedParts(WriteShared(d)[0], NatWidth(d), d, rest);
    StoreUnsigned(NatWidth(d), d);
  }

  lemma HeaderParts(size: nat, tag: nat)
    requires tag < 256
    ensures MakeHeader(size, tag) % 256 == tag && MakeHeader(size, tag) / 1024 == size
  {
  }

  lemma SmallHeaderParts(size: nat, tag: nat)
    requires tag < 16 && size < 8
    ensures (PREFIX_SMALL_BLOCK + tag + size * 16) % 16 == tag
    ensures (PREFIX_SMALL_BLOCK + tag + size * 16) / 16 % 8 == size
  {
    assert (PREFIX_SMALL_BLOCK + tag + size * 16) / 16 == 8 + size;
  }

  lemma HeaderRoundTrip(size: nat, tag: nat, rest: seq<byte>)
    requires tag < 256 && size <= MAX_WOSIZE
    ensures ReadItem(WriteHeader(size, tag) + rest) == Some((BlockItem(tag, size), rest))
  {
    PowValues();
    if tag < 16 && size < 8 {
      SmallHeaderParts(size, tag);
      assert (WriteHeader(size, tag) + rest)[1..] == rest;
    } else {
      HeaderParts(size, tag);
      var hd := MakeHeader(size, tag);
      var k := if hd < 0x1_0000_0000 then 4 else 8;
      CodedParts(WriteHeader(size, tag)[0], k, hd, rest);
      StoreUnsigned(k, hd);
    }
  }

  lemma StringRoundTrip(bytes: seq<byte>, rest: seq<byte>)
    requires |bytes| < Pow256(8)
    ensures ReadItem(WriteStringLength(|bytes|) + bytes + rest) == Some((StringItem(bytes), rest))
  {
    PowValues();
    var len := |bytes|;
    assert (bytes + rest)[..len] == bytes && (bytes + rest)[len..] == rest;
    assert WriteStringLength(len) + bytes + rest == WriteStringLength(len) + (bytes + rest);
    if len < 0x20 {
      assert (WriteStringLength(len) + (bytes + rest))[1..] == bytes + rest;
    } else {
      var k := if len < 0x100 then 1 else if len < 0x1_0000_0000 then 4 else 8;
      CodedParts(WriteStringLength(len)[0], k, len, bytes + rest);
      StoreUnsigned(k, len);
    }
  }

  lemma {:induction false} UnflattenFlatten(ds: seq<Double>, reverse: bool)
    ensures Unflatten(|ds|, Flatten(ds), reverse) == if reverse then ReverseAll(ds) else ds
  {
    if ds != [] {
      UnflattenFlatten(ds[1..], reverse);
      assert Flatten(ds)[..8] == ds[0] && Flatten(ds)[8..] == Flatten(ds[1..]);
      assert ds == [ds[0]] + ds[1..];
    }
  }

  lemma ReadDoublesFlat(ds: seq<Double>, rest: seq<byte>, code: byte)
    ensures var reverse := code != CODE_DOUBLE_ARRAY8_LITTLE && code != CODE_DOUBLE_ARRAY32_LITTLE;
      ReadDoubles(|ds|, Flatten(ds) + rest, code)
      == Some((DoubleArrayItem(if reverse then ReverseAll(ds) else ds), rest))
  {
    var src := Flatten(ds) + rest;
    assert src[..8 * |ds|] == Flatten(ds) && src[8 * |ds|..] == rest;
    UnflattenFlatten(ds, true);
    UnflattenFlatten(ds, false);
  }

  lemma DoubleCountRoundTrip(n: nat, src: seq<byte>)
    requires n < Pow256(8)
    ensures ReadItem(WriteDoubleCount(n) + src) == ReadDoubles(n, src, WriteDoubleCount(n)[0])
  {
    PowValues();
    var k := if n < 0x100 then 1 else if n < 0x1_0000_0000 then 4 else 8;
    CodedParts(WriteDoubleCount(n)[0], k, n, src);
    StoreUnsigned(k, n);
  }

  lemma DoubleArrayRoundTrip(ds: seq<Double>, rest: seq<byte>)
    requires |ds| < Pow256(8)
    ensures ReadItem(WriteDoubleCount(|ds|) + (Flatten(ds) + rest)) == Some((Reread(DoubleArrayItem(ds)), rest))
  {
    DoubleCountRoundTrip(|ds|, Flatten(ds) + rest);
    ReadDoublesFlat(ds, rest, WriteDoubleCount(|ds|)[0]);
  }

  lemma DoubleRoundTrip(d: Double, rest: seq<byte>)
    ensures ReadItem([CODE_DOUBLE_LITTLE as byte] + d + rest) == Some((DoubleItem(d), rest))
  {
    var src := [CODE_DOUBLE_LITTLE as byte] + d + rest;
    assert src[0] == CODE_DOUBLE_LITTLE && src[1..][0..] == d + rest && (d + rest)[..8] == d && (d + rest)[8..] == rest;
  }

  /** Whatever follows it, an item reads back as what Reread says, and nothing more
      is consumed. */
  lemma ItemRoundTrip(t: Item, rest: seq<byte>)
    requires ItemOk(t)
    ensures ReadItem(WriteItem(t) + rest) == Some((Reread(t), rest))
  {
    match t
    case IntItem(n) => IntRoundTrip(n, rest);
    case SharedItem(d) => SharedRoundTrip(d, rest);
    case BlockItem(tag, size) => HeaderRoundTrip(size, tag, rest);
    case StringItem(bytes) => StringRoundTrip(bytes, rest);
    case DoubleItem(d) => DoubleRoundTrip(d, rest);
    case DoubleArrayItem(ds) =>
      Associate(WriteDoubleCount(|ds|), Flatten(ds), rest);
      DoubleArrayRoundTrip(ds, rest);
  }

  /** An item survives marshalling exactly when it is not a float array of 2^32
      elements or more, or all its doubles read the same backwards. */
  lemma RereadExact(t: Item)
    ensures Reread(t) == t <==>
      !(t.DoubleArrayItem? && |t.ds| >= 0x1_0000_0000 && exists i :: 0 <= i < |t.ds| && Reverse(t.ds[i]) != t.ds[i])
  {
    if t.DoubleArrayItem? && forall i :: 0 <= i < |t.ds| ==> Reverse(t.ds[i]) == t.ds[i] {
      assert ReverseAll(t.ds) == t.ds;
    } else if t.DoubleArrayItem? {
      var i :| 0 <= i < |t.ds| && Reverse(t.ds[i]) != t.ds[i];
      assert ReverseAll(t.ds)[i] != t.ds[i];
    }
  }

  const ODD: Double := [1, 0, 0, 0, 0, 0, 0, 0]

  /** An array of 2^32 doubles whose first byte is 1 is read back, whatever follows, as an
      array of doubles whose last byte is 1. */
  lemma RereadCounterexample(t: Item, rest: seq<byte>)
    requires t == DoubleArrayItem(seq(0x1_0000_0000, _ => ODD))
    ensures ItemOk(t) && ReadItem(WriteItem(t) + rest) == Some((Reread(t), rest))
    ensures Reread(t) == DoubleArrayItem(seq(0x1_0000_0000, _ => [0, 0, 0, 0, 0, 0, 0, 1])) && Reread(t) != t
  {
    PowValues();
    ItemRoundTrip(t, rest);
    assert Reverse(ODD) == [0, 0, 0, 0, 0, 0, 0, 1];
    assert Reread(t).ds[0] == Reverse(t.ds[0]) && ODD[0] == 1 && Reverse(ODD)[0] == 0;
  }
}
