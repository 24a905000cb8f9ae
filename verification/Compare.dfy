/**
  Polymorphic comparison (`runtime/compare.c`): a loop over a current pair of values and
  an explicit stack of pairs still to be compared. It is proved to give the verdict of
  the recursive lexicographic comparison of the values seen as trees; in total mode that
  comparison is a total preorder, NaN included.
 */
module Compare {

  import opened Arithmetic
  import opened Common
  import opened Doubles
  import opened MarshalFormat
  import opened MarshalGraph
  import opened MarshalTree
  import opened RunStack

  // ----------------------------------------------------------------------- doubles

  /** The two halves of a double in memory order (little-endian). */
  function Low(d: Double): nat {
    (d[0] as nat) + 0x100 * (d[1] as nat) + 0x1_0000 * (d[2] as nat) + 0x100_0000 * (d[3] as nat)
  }

  function High(d: Double): nat {
    (d[4] as nat) + 0x100 * (d[5] as nat) + 0x1_0000 * (d[6] as nat) + 0x100_0000 * (d[7] as nat)
  }

  const SIGN: nat := 0x8000_0000
  const EXPONENT: nat := 0x7FF0_0000

  /** The bits of a double without its sign. */
  function Magnitude(d: Double): nat {
    High(d) % SIGN * 0x1_0000_0000 + Low(d)
  }

  /** What matters of a double when it is compared: nothing for a NaN; otherwise its sign
      and magnitude order it as IEEE 754 does, with both zeros equal. */
  datatype Key = NaN | Num(k: int)

  function KeyOf(d: Double): Key {
    if Magnitude(d) > EXPONENT * 0x1_0000_0000 then NaN
    else if High(d) >= SIGN then Num(-(Magnitude(d) as int))
    else Num(Magnitude(d))
  }

  /** A double is a NaN, or its key is its sign and the bits of its magnitude. */
  lemma KeyBits(d: Double)
    ensures Bits(d) == High(d) * 0x1_0000_0000 + Low(d) && Low(d) < 0x1_0000_0000 && High(d) < 0x1_0000_0000
    ensures Magnitude(d) == BiasedExponent(d) * TWO52 + Mantissa(d)
    ensures Negative(d) <==> High(d) >= SIGN
    ensures KeyOf(d) == NaN <==> IsNaN(d)
  {
    assert Bits(d) == High(d) * 0x1_0000_0000 + Low(d);
    SplitBits(High(d), Low(d), Bits(d));
  }

  lemma SplitBits(high: nat, low: nat, bits: nat)
    requires high < 0x1_0000_0000 && low < 0x1_0000_0000 && bits == high * 0x1_0000_0000 + low
    ensures bits % TWO63 == high % SIGN * 0x1_0000_0000 + low && (bits >= TWO63 <==> high >= SIGN)
    ensures bits % TWO63 % TWO52 == bits % TWO52 && bits % TWO63 / TWO52 < 0x800
  {
  }

  /** Keys are ordered as the numbers that the doubles stand for. */
  lemma KeyOrder(d: Double, e: Double)
    requires KeyOf(d).Num? && KeyOf(e).Num?
    ensures KeyOf(d).k < KeyOf(e).k <==> NumberOf(d) < NumberOf(e)
  {
    KeyBits(d);
    KeyBits(e);
    MagnitudeOrder(d, e);
    MagnitudeOrder(e, d);
    MagnitudeSign(d);
    MagnitudeSign(e);
  }

  lemma MagnitudeOrder(d: Double, e: Double)
    requires Magnitude(d) == BiasedExponent(d) * TWO52 + Mantissa(d)
    requires Magnitude(e) == BiasedExponent(e) * TWO52 + Mantissa(e)
    ensures Magnitude(d) < Magnitude(e) ==>
      Scaled(BiasedExponent(d), Mantissa(d)) < Scaled(BiasedExponent(e), Mantissa(e))
    ensures Magnitude(d) == Magnitude(e) ==> BiasedExponent(d) == BiasedExponent(e) && Mantissa(d) == Mantissa(e)
  {
    if Magnitude(d) < Magnitude(e) {
      ScaledIncreases(BiasedExponent(d), Mantissa(d), BiasedExponent(e), Mantissa(e));
    } else if Magnitude(d) == Magnitude(e) {
      DivideUnique(Magnitude(d), TWO52, BiasedExponent(d), Mantissa(d));
      DivideUnique(Magnitude(d), TWO52, BiasedExponent(e), Mantissa(e));
    }
  }

  lemma MagnitudeSign(d: Double)
    requires Magnitude(d) == BiasedExponent(d) * TWO52 + Mantissa(d)
    ensures Magnitude(d) == 0 <==> Scaled(BiasedExponent(d), Mantissa(d)) == 0
  {
    if BiasedExponent(d) > 0 {
      Monotone(1, Pow2(BiasedExponent(d) - 1), Mantissa(d) + TWO52);
    }
  }

  // ---------------------------------------------------------------------- verdicts

  datatype Verdict = Less | Equal | Greater | Unordered

  function ByInt(a: int, b: int): Verdict {
    if a < b then Less else if a > b then Greater else Equal
  }

  function CompareKeys(a: Key, b: Key, total: bool): Verdict {
    match (a, b)
    case (Num(x), Num(y)) => ByInt(x, y)
    case (NaN, NaN) => if total then Equal else Unordered
    case (Num(_), NaN) => if total then Greater else Unordered
    case (NaN, Num(_)) => if total then Less else Unordered
  }

  function CompareBytes(s: seq<byte>, t: seq<byte>): Verdict {
    if s == [] || t == [] then ByInt(|s|, |t|)
    else if s[0] != t[0] then ByInt(s[0] as int, t[0] as int)
    else CompareBytes(s[1..], t[1..])
  }

  function CompareDoubles(s: seq<Double>, t: seq<Double>, total: bool): Verdict
    requires |s| == |t|
  {
    if s == [] then Equal
    else
      var c := CompareKeys(KeyOf(s[0]), KeyOf(t[0]), total);
      if c != Equal then c else CompareDoubles(s[1..], t[1..], total)
  }

  const STRING_TAG: nat := 252
  const DOUBLE_TAG: nat := 253
  const DOUBLE_ARRAY_TAG: nat := 254

  function TagOf(t: Tree): nat
    requires !t.IntTree?
  {
    match t
    case AtomTree(tag) => tag
    case LeafTree(Str(_)) => STRING_TAG
    case LeafTree(Dbl(_)) => DOUBLE_TAG
    case LeafTree(DblArr(_)) => DOUBLE_ARRAY_TAG
    case LeafTree(Block(tag, _)) => tag
    case NodeTree(tag, _) => tag
  }

  /** Trees of data: atoms and nodes with ordinary tags, no empty node. */
  ghost predicate Data(t: Tree) {
    match t
    case IntTree(_) => true
    case AtomTree(tag) => OrdinaryTag(tag)
    case LeafTree(o) => !o.Block?
    case NodeTree(tag, kids) => OrdinaryTag(tag) && kids != [] && forall i :: 0 <= i < |kids| ==> Data(kids[i])
  }

  ghost predicate AllData(ts: seq<Tree>) {
    forall i :: 0 <= i < |ts| ==> Data(ts[i])
  }

  /** The recursive comparison: integers before blocks, then tags, then sizes, then
      contents in order. */
  ghost function CompareTrees(t: Tree, u: Tree, total: bool): Verdict
    decreases t, 0
  {
    if t.IntTree? && u.IntTree? then ByInt(t.n, u.n)
    else if t.IntTree? then Less
    else if u.IntTree? then Greater
    else if TagOf(t) != TagOf(u) then ByInt(TagOf(t), TagOf(u))
    else if t.LeafTree? && u.LeafTree? then CompareLeaves(t.o, u.o, total)
    else
      var c := ByInt(|Kids(t)|, |Kids(u)|);
      if c != Equal || !t.NodeTree? then c else CompareForests(t.kids, Kids(u), total)
  }

  function CompareLeaves(o: Obj, o': Obj, total: bool): Verdict {
    if o.Str? && o'.Str? then CompareBytes(o.bytes, o'.bytes)
    else if o.Dbl? && o'.Dbl? then CompareKeys(KeyOf(o.d), KeyOf(o'.d), total)
    else if o.DblArr? && o'.DblArr? then
      if |o.ds| != |o'.ds| then ByInt(|o.ds|, |o'.ds|) else CompareDoubles(o.ds, o'.ds, total)
    else Equal
  }

  /** Pair by pair, up to the first difference. */
  ghost function CompareForests(ts: seq<Tree>, us: seq<Tree>, total: bool): Verdict
    requires |ts| == |us|
    decreases ts, 1
  {
    if ts == [] then Equal
    else
      var c := CompareTrees(ts[0], us[0], total);
      if c != Equal then c else CompareForests(ts[1..], us[1..], total)
  }

  // ------------------------------------------------------------- a total preorder

  function Flip(c: Verdict): Verdict {
    match c
    case Less => Greater
    case Greater => Less
    case _ => c
  }

  /** Verdicts along two steps, and across. */
  ghost predicate Chains(c1: Verdict, c2: Verdict, c: Verdict) {
    && c1 != Unordered && c2 != Unordered && c != Unordered
    && (c1 == Equal ==> c == c2) && (c2 == Equal ==> c == c1) && (c1 == c2 ==> c == c1)
  }

  lemma {:induction false} BytesFlip(s: seq<byte>, t: seq<byte>)
    ensures CompareBytes(s, s) == Equal && CompareBytes(s, t) != Unordered
    ensures CompareBytes(t, s) == Flip(CompareBytes(s, t))
    decreases |s|
  {
    if s != [] {
      BytesFlip(s[1..], if t == [] then [] else t[1..]);
    }
  }

  lemma {:induction false} BytesChain(s: seq<byte>, t: seq<byte>, u: seq<byte>)
    ensures Chains(CompareBytes(s, t), CompareBytes(t, u), CompareBytes(s, u))
    decreases |s|
  {
    BytesFlip(s, t);
    BytesFlip(t, u);
    BytesFlip(s, u);
    if s != [] && t != [] && u != [] {
      BytesChain(s[1..], t[1..], u[1..]);
    }
  }

  lemma {:induction false} DoublesOrder(s: seq<Double>, t: seq<Double>, u: seq<Double>)
    requires |s| == |t| == |u|
    ensures CompareDoubles(s, s, true) == Equal && CompareDoubles(t, s, true) == Flip(CompareDoubles(s, t, true))
    ensures Chains(CompareDoubles(s, t, true), CompareDoubles(t, u, true), CompareDoubles(s, u, true))
    decreases |s|
  {
    if s != [] {
      DoublesOrder(s[1..], t[1..], u[1..]);
    }
  }

  lemma LeavesFlip(o: Obj, o': Obj)
    ensures CompareLeaves(o, o, true) == Equal && CompareLeaves(o, o', true) != Unordered
    ensures CompareLeaves(o', o, true) == Flip(CompareLeaves(o, o', true))
  {
    if o.Str? && o'.Str? {
      BytesFlip(o.bytes, o'.bytes);
    } else if o.Str? {
      BytesFlip(o.bytes, o.bytes);
    } else if o.DblArr? {
      DoublesOrder(o.ds, o.ds, o.ds);
      if o'.DblArr? && |o.ds| == |o'.ds| {
        DoublesOrder(o.ds, o'.ds, o.ds);
      }
    }
  }

  lemma LeavesChain(o: Obj, p: Obj, q: Obj)
    requires TagOf(LeafTree(o)) == TagOf(LeafTree(p)) == TagOf(LeafTree(q)) && !o.Block? && !p.Block? && !q.Block?
    ensures Chains(CompareLeaves(o, p, true), CompareLeaves(p, q, true), CompareLeaves(o, q, true))
  {
    LeavesFlip(o, p);
    LeavesFlip(p, q);
    LeavesFlip(o, q);
    if o.Str? {
      BytesChain(o.bytes, p.bytes, q.bytes);
    } else if o.DblArr? && |o.ds| == |p.ds| == |q.ds| {
      DoublesOrder(o.ds, p.ds, q.ds);
    }
  }

  /** Total comparison is reflexive, always gives an answer, and the opposite one with
      its arguments exchanged. */
  lemma {:induction false} TreesFlip(t: Tree, u: Tree)
    ensures CompareTrees(t, u, true) != Unordered && CompareTrees(u, t, true) == Flip(CompareTrees(t, u, true))
    decreases t, 0
  {
    if t.LeafTree? && u.LeafTree? {
      LeavesFlip(t.o, u.o);
    } else if t.NodeTree? && !u.IntTree? && TagOf(t) == TagOf(u) && |t.kids| == |Kids(u)| {
      ForestsFlip(t.kids, Kids(u));
    }
  }

  lemma {:induction false} ForestsFlip(ts: seq<Tree>, us: seq<Tree>)
    requires |ts| == |us|
    ensures CompareForests(ts, us, true) != Unordered
    ensures CompareForests(us, ts, true) == Flip(CompareForests(ts, us, true))
    decreases ts, 1
  {
    if ts != [] {
      TreesFlip(ts[0], us[0]);
      ForestsFlip(ts[1..], us[1..]);
    }
  }

  lemma {:induction false} TreesReflexive(t: Tree)
    requires Data(t)
    ensures CompareTrees(t, t, true) == Equal
    decreases t, 0
  {
    if t.LeafTree? {
      LeavesFlip(t.o, t.o);
    } else if t.NodeTree? {
      ForestsReflexive(t.kids);
    }
  }

  lemma {:induction false} ForestsReflexive(ts: seq<Tree>)
    requires AllData(ts)
    ensures CompareForests(ts, ts, true) == Equal
    decreases ts, 1
  {
    if ts != [] {
      TreesReflexive(ts[0]);
      ForestsReflexive(ts[1..]);
    }
  }

  lemma TagsOfData(t: Tree)
    requires Data(t) && !t.IntTree?
    ensures t.LeafTree? <==> TagOf(t) >= STRING_TAG
  {
  }

  /** Total comparison is transitive, in the strong sense that ties may be replaced. */
  lemma {:induction false} TreesChain(t: Tree, u: Tree, v: Tree)
    requires Data(t) && Data(u) && Data(v)
    ensures Chains(CompareTrees(t, u, true), CompareTrees(u, v, true), CompareTrees(t, v, true))
    decreases t, 0
  {
    TreesFlip(t, u);
    TreesFlip(u, v);
    TreesFlip(t, v);
    if !t.IntTree? && !u.IntTree? && !v.IntTree? && TagOf(t) == TagOf(u) == TagOf(v) {
      TagsOfData(t);
      TagsOfData(u);
      TagsOfData(v);
      if t.LeafTree? {
        LeavesChain(t.o, u.o, v.o);
      } else {
        NodesChain(t, u, v);
      }
    }
  }

  lemma {:induction false} NodesChain(t: Tree, u: Tree, v: Tree)
    requires Data(t) && Data(u) && Data(v)
    requires (t.NodeTree? || t.AtomTree?) && (u.NodeTree? || u.AtomTree?) && (v.NodeTree? || v.AtomTree?)
    requires TagOf(t) == TagOf(u) == TagOf(v)
    ensures Chains(CompareTrees(t, u, true), CompareTrees(u, v, true), CompareTrees(t, v, true))
    decreases t, 0, 0
  {
    TreesFlip(t, u);
    TreesFlip(u, v);
    TreesFlip(t, v);
    if t.NodeTree? && u.NodeTree? && v.NodeTree? && |t.kids| == |u.kids| == |v.kids| {
      ForestsChain(t.kids, u.kids, v.kids);
    }
  }

  lemma {:induction false} ForestsChain(ts: seq<Tree>, us: seq<Tree>, vs: seq<Tree>)
    requires |ts| == |us| == |vs| && AllData(ts) && AllData(us) && AllData(vs)
    ensures Chains(CompareForests(ts, us, true), CompareForests(us, vs, true), CompareForests(ts, vs, true))
    decreases ts, 1
  {
    if ts != [] {
      TreesChain(ts[0], us[0], vs[0]);
      ForestsChain(ts[1..], us[1..], vs[1..]);
    }
  }

  /** Without total mode the verdict is the same, unless a NaN leaves it open. */
  lemma {:induction false} TreesPartial(t: Tree, u: Tree)
    ensures CompareTrees(t, u, false) != Unordered ==> CompareTrees(t, u, false) == CompareTrees(t, u, true)
    decreases t, 0
  {
    if t.LeafTree? && u.LeafTree? && t.o.DblArr? && u.o.DblArr? && |t.o.ds| == |u.o.ds| {
      DoublesPartial(t.o.ds, u.o.ds);
    } else if t.NodeTree? && !u.IntTree? && TagOf(t) == TagOf(u) && |t.kids| == |Kids(u)| {
      ForestsPartial(t.kids, Kids(u));
    }
  }

  lemma {:induction false} DoublesPartial(s: seq<Double>, t: seq<Double>)
    requires |s| == |t|
    ensures CompareDoubles(s, t, false) != Unordered ==> CompareDoubles(s, t, false) == CompareDoubles(s, t, true)
    decreases |s|
  {
    if s != [] {
      DoublesPartial(s[1..], t[1..]);
    }
  }

  lemma {:induction false} ForestsPartial(ts: seq<Tree>, us: seq<Tree>)
    requires |ts| == |us|
    ensures CompareForests(ts, us, false) != Unordered ==>
      CompareForests(ts, us, false) == CompareForests(ts, us, true)
    decreases ts, 1
  {
    if ts != [] {
      TreesPartial(ts[0], us[0]);
      ForestsPartial(ts[1..], us[1..]);
    }
  }

  // ------------------------------------------------------------- values in the heap

  /** Atoms, too, have ordinary tags. */
  ghost predicate DataHeap(h: Heap, v: Val) {
    DataVal(v) && forall a, i :: a in h && 0 <= i < |Children(h[a])| ==> DataVal(Children(h[a])[i])
  }

  predicate DataVal(v: Val) {
    v.Atom? ==> OrdinaryTag(v.tag)
  }

  lemma {:induction false} UnfoldData(h: Heap, rank: map<Addr, nat>, v: Val)
    requires HeapOk(h) && Acyclic(h, rank) && ValOk(h, v) && DataHeap(h, v)
    ensures Data(Unfold(h, rank, v))
    decreases Rank(rank, v)
  {
    if v.Ptr? && h[v.a].Block? {
      var fields, t := h[v.a].fields, Unfold(h, rank, v);
      assert ObjOk(h, h[v.a]);
      assert Children(h[v.a]) == fields;
      forall i | 0 <= i < |fields| ensures Data(t.kids[i]) {
        assert ValOk(h, fields[i]);
        UnfoldData(h, rank, fields[i]);
      }
    }
  }

  /** Pairs of values still to be compared. */
  type Pair = (Val, Val)

  ghost predicate PairOk(h: Heap, p: Pair) {
    ValOk(h, p.0) && ValOk(h, p.1) && DataVal(p.0) && DataVal(p.1)
  }

  ghost predicate PairsOk(h: Heap, pairs: seq<Pair>) {
    forall i :: 0 <= i < |pairs| ==> PairOk(h, pairs[i])
  }

  ghost function Lefts(h: Heap, rank: map<Addr, nat>, pairs: seq<Pair>): (ts: seq<Tree>)
    requires HeapOk(h) && Acyclic(h, rank) && PairsOk(h, pairs)
    ensures |ts| == |pairs|
  {
    seq(|pairs|, i requires 0 <= i < |pairs| => assert PairOk(h, pairs[i]); Unfold(h, rank, pairs[i].0))
  }

  ghost function Rights(h: Heap, rank: map<Addr, nat>, pairs: seq<Pair>): (ts: seq<Tree>)
    requires HeapOk(h) && Acyclic(h, rank) && PairsOk(h, pairs)
    ensures |ts| == |pairs|
  {
    seq(|pairs|, i requires 0 <= i < |pairs| => assert PairOk(h, pairs[i]); Unfold(h, rank, pairs[i].1))
  }

  ghost function ComparePairs(h: Heap, rank: map<Addr, nat>, pairs: seq<Pair>, total: bool): Verdict
    requires HeapOk(h) && Acyclic(h, rank) && PairsOk(h, pairs)
  {
    CompareForests(Lefts(h, rank, pairs), Rights(h, rank, pairs), total)
  }

  lemma {:induction false} ForestsAppend(ts: seq<Tree>, us: seq<Tree>, ts': seq<Tree>, us': seq<Tree>, total: bool)
    requires |ts| == |us| && |ts'| == |us'|
    ensures var c := CompareForests(ts, us, total);
      CompareForests(ts + ts', us + us', total) == if c != Equal then c else CompareForests(ts', us', total)
    decreases |ts|
  {
    if ts == [] {
      assert ts + ts' == ts' && us + us' == us';
    } else {
      assert (ts + ts')[1..] == ts[1..] + ts' && (us + us')[1..] == us[1..] + us';
      ForestsAppend(ts[1..], us[1..], ts', us', total);
    }
  }

  lemma TreesOfAppend(h: Heap, rank: map<Addr, nat>, ps: seq<Pair>, qs: seq<Pair>)
    requires HeapOk(h) && Acyclic(h, rank) && PairsOk(h, ps) && PairsOk(h, qs) && PairsOk(h, ps + qs)
    ensures Lefts(h, rank, ps + qs) == Lefts(h, rank, ps) + Lefts(h, rank, qs)
    ensures Rights(h, rank, ps + qs) == Rights(h, rank, ps) + Rights(h, rank, qs)
  {
  }

  lemma PairsAppend(h: Heap, rank: map<Addr, nat>, ps: seq<Pair>, qs: seq<Pair>, total: bool)
    requires HeapOk(h) && Acyclic(h, rank) && PairsOk(h, ps) && PairsOk(h, qs) && PairsOk(h, ps + qs)
    ensures var c := ComparePairs(h, rank, ps, total);
      ComparePairs(h, rank, ps + qs, total) == if c != Equal then c else ComparePairs(h, rank, qs, total)
    ensures ForestWeight(Lefts(h, rank, ps + qs)) == ForestWeight(Lefts(h, rank, ps)) + ForestWeight(Lefts(h, rank, qs))
  {
    TreesOfAppend(h, rank, ps, qs);
    ForestAppend(Lefts(h, rank, ps), Lefts(h, rank, qs));
    ForestsAppend(Lefts(h, rank, ps), Rights(h, rank, ps), Lefts(h, rank, qs), Rights(h, rank, qs), total);
  }

  ghost function CompareVals(h: Heap, rank: map<Addr, nat>, p: Pair, total: bool): Verdict
    requires HeapOk(h) && Acyclic(h, rank) && PairOk(h, p)
  {
    CompareTrees(Unfold(h, rank, p.0), Unfold(h, rank, p.1), total)
  }

  lemma SinglePair(h: Heap, rank: map<Addr, nat>, p: Pair, total: bool)
    requires HeapOk(h) && Acyclic(h, rank) && PairOk(h, p)
    ensures PairsOk(h, [p]) && ComparePairs(h, rank, [p], total) == CompareVals(h, rank, p, total)
    ensures ForestWeight(Lefts(h, rank, [p])) == Weight(Unfold(h, rank, p.0))
  {
    assert Lefts(h, rank, [p]) == [Unfold(h, rank, p.0)];
    assert Rights(h, rank, [p]) == [Unfold(h, rank, p.1)];
    SingleForest(Unfold(h, rank, p.0), Unfold(h, rank, p.1), total);
  }

  lemma SingleForest(t: Tree, u: Tree, total: bool)
    ensures CompareForests([t], [u], total) == CompareTrees(t, u, total) && ForestWeight([t]) == Weight(t)
  {
    assert [t][1..] == [] && [u][1..] == [];
    assert CompareForests([], [], total) == Equal && ForestWeight([]) == 0;
  }

  function Zip(vs: seq<Val>, us: seq<Val>): (ps: seq<Pair>)
    requires |vs| == |us|
    ensures |ps| == |vs|
  {
    seq(|vs|, i requires 0 <= i < |vs| => (vs[i], us[i]))
  }

  lemma FieldPairs(h: Heap, a: Addr, b: Addr)
    requires HeapOk(h) && DataHeap(h, Ptr(a)) && a in h && b in h && h[a].Block? && h[b].Block?
    requires |h[a].fields| == |h[b].fields|
    ensures PairsOk(h, Zip(h[a].fields, h[b].fields)) && ObjOk(h, h[a]) && ObjOk(h, h[b])
  {
    var ps := Zip(h[a].fields, h[b].fields);
    assert ObjOk(h, h[a]) && ObjOk(h, h[b]);
    forall i | 0 <= i < |ps| ensures PairOk(h, ps[i]) {
      assert ValOk(h, h[a].fields[i]) && ValOk(h, h[b].fields[i]);
      assert Children(h[a])[i] == h[a].fields[i] && Children(h[b])[i] == h[b].fields[i];
    }
  }

  /** Two blocks with the same tag and size compare as their fields, in order. */
  lemma BlocksCompare(h: Heap, rank: map<Addr, nat>, a: Addr, b: Addr, total: bool)
    requires HeapOk(h) && Acyclic(h, rank) && DataHeap(h, Ptr(a)) && a in h && b in h && h[a].Block? && h[b].Block?
    requires h[a].tag == h[b].tag && |h[a].fields| == |h[b].fields|
    ensures var ps := Zip(h[a].fields, h[b].fields);
      PairsOk(h, ps) && ComparePairs(h, rank, ps, total) == CompareVals(h, rank, (Ptr(a), Ptr(b)), total)
      && ForestWeight(Lefts(h, rank, ps)) < Weight(Unfold(h, rank, Ptr(a)))
  {
    var ps := Zip(h[a].fields, h[b].fields);
    FieldPairs(h, a, b);
    assert Lefts(h, rank, ps) == Unfold(h, rank, Ptr(a)).kids;
    assert Rights(h, rank, ps) == Unfold(h, rank, Ptr(b)).kids;
  }

  // ------------------------------------------------- what the verdict says

  ghost predicate Says(c: Verdict, a: int, b: int) {
    c != Unordered && (c == Less <==> a < b) && (c == Greater <==> a > b)
  }

  /** Numbers by their values. A NaN leaves partial comparison open; in total comparison
      NaNs are alike and below all numbers. */
  ghost predicate FloatSays(c: Verdict, d: Double, e: Double, total: bool) {
    if !IsNaN(d) && !IsNaN(e) then Says(c, NumberOf(d), NumberOf(e))
    else if !total then c == Unordered
    else Says(c, if IsNaN(d) then 0 else 1, if IsNaN(e) then 0 else 1)
  }

  /** The first differing byte decides, taken without a sign; without one the shorter string
      is below. */
  ghost predicate StringSays(c: Verdict, s: seq<byte>, t: seq<byte>, i: nat) {
    && i <= |s| && i <= |t| && s[..i] == t[..i]
    && if i < |s| && i < |t| then s[i] != t[i] && Says(c, s[i], t[i])
       else Says(c, |s|, |t|)
  }

  /** The first element that does not compare equal decides. */
  ghost predicate ArraySays(c: Verdict, s: seq<Double>, t: seq<Double>, total: bool, i: nat)
    requires |s| == |t|
  {
    && i <= |s| && (forall j :: 0 <= j < i ==> FloatSays(Equal, s[j], t[j], total))
    && if i < |s| then c != Equal && FloatSays(c, s[i], t[i], total) else c == Equal
  }

  /** The first field that does not compare equal decides. */
  ghost predicate FieldsSay(h: Heap, rank: map<Addr, nat>, ps: seq<Pair>, total: bool, c: Verdict, i: nat)
    requires HeapOk(h) && Acyclic(h, rank) && PairsOk(h, ps)
  {
    && i <= |ps| && (forall j :: 0 <= j < i ==> CompareAt(h, rank, ps, total, j) == Equal)
    && if i < |ps| then c == CompareAt(h, rank, ps, total, i) != Equal else c == Equal
  }

  ghost function CompareAt(h: Heap, rank: map<Addr, nat>, ps: seq<Pair>, total: bool, i: nat): Verdict
    requires HeapOk(h) && Acyclic(h, rank) && PairsOk(h, ps) && i < |ps|
  {
    assert PairOk(h, ps[i]);
    CompareVals(h, rank, ps[i], total)
  }

  lemma FloatsCompare(d: Double, e: Double, total: bool)
    ensures FloatSays(CompareKeys(KeyOf(d), KeyOf(e), total), d, e, total)
  {
    KeyBits(d);
    KeyBits(e);
    if !IsNaN(d) && !IsNaN(e) {
      KeyOrder(d, e);
      KeyOrder(e, d);
    }
  }

  lemma {:induction false} StringsCompare(s: seq<byte>, t: seq<byte>) returns (i: nat)
    ensures StringSays(CompareBytes(s, t), s, t, i)
    decreases |s|
  {
    i := 0;
    if s != [] && t != [] && s[0] == t[0] {
      i := StringsCompare(s[1..], t[1..]);
      assert s[..i + 1] == [s[0]] + s[1..][..i] && t[..i + 1] == [t[0]] + t[1..][..i];
      i := i + 1;
    }
  }

  lemma {:induction false} ArraysCompare(s: seq<Double>, t: seq<Double>, total: bool) returns (i: nat)
    requires |s| == |t|
    ensures ArraySays(CompareDoubles(s, t, total), s, t, total, i)
    decreases |s|
  {
    i := 0;
    if s != [] {
      FloatsCompare(s[0], t[0], total);
      if CompareKeys(KeyOf(s[0]), KeyOf(t[0]), total) == Equal {
        i := ArraysCompare(s[1..], t[1..], total);
        forall j | 0 <= j < i + 1 ensures FloatSays(Equal, s[j], t[j], total) {
          assert j > 0 ==> s[j] == s[1..][j - 1] && t[j] == t[1..][j - 1];
        }
        i := i + 1;
      }
    }
  }

  lemma FirstPair(h: Heap, rank: map<Addr, nat>, p: Pair, rest: seq<Pair>, total: bool)
    requires HeapOk(h) && Acyclic(h, rank) && PairOk(h, p) && PairsOk(h, rest) && PairsOk(h, [p] + rest)
    ensures var c := CompareVals(h, rank, p, total);
      ComparePairs(h, rank, [p] + rest, total) == if c != Equal then c else ComparePairs(h, rank, rest, total)
  {
    SinglePair(h, rank, p, total);
    PairsAppend(h, rank, [p], rest, total);
  }

  lemma FieldsShift(h: Heap, rank: map<Addr, nat>, p: Pair, rest: seq<Pair>, total: bool, c: Verdict, i: nat)
    requires HeapOk(h) && Acyclic(h, rank) && PairOk(h, p) && PairsOk(h, rest) && PairsOk(h, [p] + rest)
    requires CompareVals(h, rank, p, total) == Equal && FieldsSay(h, rank, rest, total, c, i)
    ensures FieldsSay(h, rank, [p] + rest, total, c, i + 1)
  {
    var ps := [p] + rest;
    forall j: nat | j < |rest| ensures CompareAt(h, rank, ps, total, j + 1) == CompareAt(h, rank, rest, total, j) {
      assert ps[j + 1] == rest[j];
    }
    forall j: nat | j < i + 1 ensures CompareAt(h, rank, ps, total, j) == Equal {
      assert j > 0 ==> CompareAt(h, rank, ps, total, j) == CompareAt(h, rank, rest, total, j - 1);
    }
  }

  lemma {:induction false} FieldsCompare(h: Heap, rank: map<Addr, nat>, ps: seq<Pair>, total: bool) returns (i: nat)
    requires HeapOk(h) && Acyclic(h, rank) && PairsOk(h, ps)
    ensures FieldsSay(h, rank, ps, total, ComparePairs(h, rank, ps, total), i)
    decreases |ps|
  {
    i := 0;
    if ps != [] {
      var p, rest := ps[0], ps[1..];
      assert PairOk(h, p) && ps == [p] + rest;
      FirstPair(h, rank, p, rest, total);
      if CompareVals(h, rank, p, total) == Equal {
        i := FieldsCompare(h, rank, rest, total);
        FieldsShift(h, rank, p, rest, total, ComparePairs(h, rank, rest, total), i);
        i := i + 1;
      }
    }
  }

  /** The order of values: integers, which are below blocks; then tags; then strings, floats
      and float arrays by their contents, and other blocks by their sizes and fields. */
  ghost predicate Right(h: Heap, rank: map<Addr, nat>, v1: Val, v2: Val, total: bool, c: Verdict)
    requires HeapOk(h) && Acyclic(h, rank) && PairOk(h, (v1, v2)) && DataHeap(h, v1)
  {
    if v1.Long? && v2.Long? then Says(c, v1.n, v2.n)
    else if v1.Long? then c == Less
    else if v2.Long? then c == Greater
    else if ValTag(h, v1) != ValTag(h, v2) then Says(c, ValTag(h, v1), ValTag(h, v2))
    else if v1.Ptr? && v2.Ptr? && !h[v1.a].Block? then LeafRight(h[v1.a], h[v2.a], total, c)
    else if ValSize(h, v1) != ValSize(h, v2) then Says(c, ValSize(h, v1), ValSize(h, v2))
    else if v1.Ptr? && v2.Ptr? && h[v2.a].Block? then BlockRight(h, rank, v1.a, v2.a, total, c)
    else c == Equal
  }

  ghost predicate LeafRight(o: Obj, o': Obj, total: bool, c: Verdict) {
    && (o.Str? && o'.Str? ==> exists i :: StringSays(c, o.bytes, o'.bytes, i))
    && (o.Dbl? && o'.Dbl? ==> FloatSays(c, o.d, o'.d, total))
    && (o.DblArr? && o'.DblArr? ==>
          if |o.ds| != |o'.ds| then Says(c, |o.ds|, |o'.ds|) else exists i :: ArraySays(c, o.ds, o'.ds, total, i))
  }

  ghost predicate BlockRight(h: Heap, rank: map<Addr, nat>, a: Addr, b: Addr, total: bool, c: Verdict)
    requires HeapOk(h) && Acyclic(h, rank) && a in h && b in h && h[a].Block? && h[b].Block?
    requires DataHeap(h, Ptr(a)) && |h[a].fields| == |h[b].fields|
  {
    FieldPairs(h, a, b);
    exists i :: FieldsSay(h, rank, Zip(h[a].fields, h[b].fields), total, c, i)
  }

  lemma LeavesRight(o: Obj, o': Obj, total: bool)
    ensures LeafRight(o, o', total, CompareLeaves(o, o', total))
  {
    if o.Str? && o'.Str? {
      var i := StringsCompare(o.bytes, o'.bytes);
    } else if o.Dbl? && o'.Dbl? {
      FloatsCompare(o.d, o'.d, total);
    } else if o.DblArr? && o'.DblArr? && |o.ds| == |o'.ds| {
      var i := ArraysCompare(o.ds, o'.ds, total);
    }
  }

  lemma VerdictRight(h: Heap, rank: map<Addr, nat>, v1: Val, v2: Val, total: bool)
    requires HeapOk(h) && Acyclic(h, rank) && PairOk(h, (v1, v2)) && DataHeap(h, v1)
    ensures Right(h, rank, v1, v2, total, CompareVals(h, rank, (v1, v2), total))
  {
    UnfoldHead(h, rank, v1);
    UnfoldHead(h, rank, v2);
    if !v1.Long? && !v2.Long? && ValTag(h, v1) == ValTag(h, v2) {
      LeafPartner(h, v1, v2);
      LeafPartner(h, v2, v1);
      if v1.Ptr? && v2.Ptr? && !h[v1.a].Block? {
        LeavesRight(h[v1.a], h[v2.a], total);
      } else if v1.Ptr? && v2.Ptr? && ValSize(h, v1) == ValSize(h, v2) {
        BlocksCompare(h, rank, v1.a, v2.a, total);
        var i := FieldsCompare(h, rank, Zip(h[v1.a].fields, h[v2.a].fields), total);
      }
    }
  }

  /** Only one verdict is right. */
  lemma RightUnique(h: Heap, rank: map<Addr, nat>, v1: Val, v2: Val, total: bool, c: Verdict, c': Verdict)
    requires HeapOk(h) && Acyclic(h, rank) && PairOk(h, (v1, v2)) && DataHeap(h, v1)
    requires Right(h, rank, v1, v2, total, c) && Right(h, rank, v1, v2, total, c')
    ensures c == c'
  {
    if !v1.Long? && !v2.Long? && ValTag(h, v1) == ValTag(h, v2) && v1.Ptr? && v2.Ptr? {
      LeafPartner(h, v1, v2);
      if !h[v1.a].Block? {
        LeafUnique(h[v1.a], h[v2.a], total, c, c');
      } else if h[v2.a].Block? && ValSize(h, v1) == ValSize(h, v2) {
        FieldPairs(h, v1.a, v2.a);
        var ps := Zip(h[v1.a].fields, h[v2.a].fields);
        var i: nat :| FieldsSay(h, rank, ps, total, c, i);
        var i': nat :| FieldsSay(h, rank, ps, total, c', i');
        FieldsUnique(h, rank, ps, total, c, c', i, i');
      }
    }
  }

  lemma FieldsUnique(h: Heap, rank: map<Addr, nat>, ps: seq<Pair>, total: bool, c: Verdict, c': Verdict,
                     i: nat, i': nat)
    requires HeapOk(h) && Acyclic(h, rank) && PairsOk(h, ps)
    requires FieldsSay(h, rank, ps, total, c, i) && FieldsSay(h, rank, ps, total, c', i')
    ensures c == c'
  {
  }

  lemma LeafUnique(o: Obj, o': Obj, total: bool, c: Verdict, c': Verdict)
    requires !o.Block? && !o'.Block? && o.Str? == o'.Str? && o.Dbl? == o'.Dbl?
    requires LeafRight(o, o', total, c) && LeafRight(o, o', total, c')
    ensures c == c'
  {
    if o.Str? {
      var i: nat :| StringSays(c, o.bytes, o'.bytes, i);
      var i': nat :| StringSays(c', o.bytes, o'.bytes, i');
      StringUnique(o.bytes, o'.bytes, c, c', i, i');
    } else if o.DblArr? && |o.ds| == |o'.ds| {
      var i: nat :| ArraySays(c, o.ds, o'.ds, total, i);
      var i': nat :| ArraySays(c', o.ds, o'.ds, total, i');
      ArrayUnique(o.ds, o'.ds, total, c, c', i, i');
    } else if o.Dbl? {
      FloatUnique(o.d, o'.d, total, c, c');
    }
  }

  lemma FloatUnique(d: Double, e: Double, total: bool, c: Verdict, c': Verdict)
    requires FloatSays(c, d, e, total) && FloatSays(c', d, e, total)
    ensures c == c'
  {
  }

  lemma ArrayUnique(s: seq<Double>, t: seq<Double>, total: bool, c: Verdict, c': Verdict, i: nat, i': nat)
    requires |s| == |t| && ArraySays(c, s, t, total, i) && ArraySays(c', s, t, total, i')
    ensures c == c'
  {
    if i < |s| {
      FloatsDecide(s[i], t[i], total, c);
    }
    if i' < |s| {
      FloatsDecide(s[i'], t[i'], total, c');
    }
  }

  lemma FloatsDecide(d: Double, e: Double, total: bool, c: Verdict)
    requires FloatSays(c, d, e, total)
    ensures forall c' :: FloatSays(c', d, e, total) ==> c' == c
  {
  }

  lemma StringUnique(s: seq<byte>, t: seq<byte>, c: Verdict, c': Verdict, i: nat, i': nat)
    requires StringSays(c, s, t, i) && StringSays(c', s, t, i')
    ensures c == c'
  {
    SamePrefix(s, t, i);
    SamePrefix(s, t, i');
  }

  lemma SamePrefix(s: seq<byte>, t: seq<byte>, i: nat)
    requires i <= |s| && i <= |t| && s[..i] == t[..i]
    ensures forall j :: 0 <= j < i ==> s[j] == t[j]
  {
    forall j | 0 <= j < i ensures s[j] == t[j] {
      assert s[j] == s[..i][j] && t[j] == t[..i][j];
    }
  }

  // ------------------------------------------------------------------------ the loop

  const UNORDERED := -0x8000_0000_0000_0000

  /** How the result of compare_val is read. */
  function Meaning(res: int): Verdict {
    if res == UNORDERED then Unordered else if res < 0 then Less else if res > 0 then Greater else Equal
  }

  predicate LessThan(a: Double, b: Double) {
    KeyOf(a).Num? && KeyOf(b).Num? && KeyOf(a).k < KeyOf(b).k
  }

  predicate SameDouble(a: Double, b: Double) {
    KeyOf(a).Num? && KeyOf(a) == KeyOf(b)
  }

  /** The tests on two doubles; None when the comparison goes on. */
  function CompareDouble(a: Double, b: Double, total: bool): (r: Option<int>)
    ensures r == None <==> CompareKeys(KeyOf(a), KeyOf(b), total) == Equal
    ensures r.Some? ==> Meaning(r.value) == CompareKeys(KeyOf(a), KeyOf(b), total)
  {
    if LessThan(a, b) then Some(-1)
    else if LessThan(b, a) then Some(1)
    else if SameDouble(a, b) then None
    else if !total then Some(UNORDERED)
    else if SameDouble(a, a) then Some(1)
    else if SameDouble(b, b) then Some(-1)
    else None
  }

  lemma DoublesPrefix(s: seq<Double>, t: seq<Double>, i: nat, total: bool)
    requires |s| == |t| && i < |s| && CompareKeys(KeyOf(s[i]), KeyOf(t[i]), total) == Equal
    ensures CompareDoubles(s[i..], t[i..], total) == CompareDoubles(s[i + 1..], t[i + 1..], total)
  {
    assert s[i..][1..] == s[i + 1..] && t[i..][1..] == t[i + 1..];
  }

  method CompareDoubleArrays(s: seq<Double>, t: seq<Double>, total: bool) returns (r: Option<int>)
    requires |s| == |t|
    ensures r == None <==> CompareDoubles(s, t, total) == Equal
    ensures r.Some? ==> Meaning(r.value) == CompareDoubles(s, t, total)
  {
    var i := 0;
    while i < |s|
      invariant i <= |s| && CompareDoubles(s, t, total) == CompareDoubles(s[i..], t[i..], total)
    {
      r := CompareDouble(s[i], t[i], total);
      if r.Some? {
        return;
      }
      DoublesPrefix(s, t, i, total);
      i := i + 1;
    }
    r := None;
  }

  /** memcmp on as many bytes of both. */
  function Memcmp(s: seq<byte>, t: seq<byte>): int
    requires |s| == |t|
  {
    if s == [] then 0 else if s[0] != t[0] then (s[0] as int) - (t[0] as int) else Memcmp(s[1..], t[1..])
  }

  lemma {:induction false} MemcmpBytes(s: seq<byte>, t: seq<byte>)
    ensures var n := if |s| <= |t| then |s| else |t|;
      var r := Memcmp(s[..n], t[..n]);
      CompareBytes(s, t) == if r != 0 then ByInt(r, 0) else ByInt(|s|, |t|)
    decreases |s|
  {
    if s != [] && t != [] {
      var n := if |s| <= |t| then |s| else |t|;
      assert s[..n][1..] == s[1..][..n - 1] && t[..n][1..] == t[1..][..n - 1];
      MemcmpBytes(s[1..], t[1..]);
    }
  }

  method CompareStrings(s: seq<byte>, t: seq<byte>) returns (r: Option<int>)
    requires |s| < 0x1000_0000_0000_0000 && |t| < 0x1000_0000_0000_0000
    ensures r == None <==> CompareBytes(s, t) == Equal
    ensures r.Some? ==> Meaning(r.value) == CompareBytes(s, t)
  {
    MemcmpBytes(s, t);
    var n := if |s| <= |t| then |s| else |t|;
    var res := Memcmp(s[..n], t[..n]);
    r := if res < 0 then Some(-1) else if res > 0 then Some(1)
         else if |s| != |t| then Some(|s| - |t|) else None;
  }

  /** What the comparison of one pair comes to, up to the fields of blocks. */
  datatype Head = Result(res: int) | Same | Descend(vs: seq<Val>, us: seq<Val>)

  function HeadOf(r: Option<int>): Head {
    if r == None then Same else Result(r.value)
  }

  function ValTag(h: Heap, v: Val): nat
    requires ValOk(h, v) && !v.Long?
  {
    if v.Atom? then v.tag
    else match h[v.a]
      case Str(_) => STRING_TAG
      case Dbl(_) => DOUBLE_TAG
      case DblArr(_) => DOUBLE_ARRAY_TAG
      case Block(tag, _) => tag
  }

  function ValSize(h: Heap, v: Val): nat
    requires ValOk(h, v) && !v.Long?
  {
    if v.Atom? then 0 else |Children(h[v.a])|
  }

  ghost predicate HeadRight(h: Heap, rank: map<Addr, nat>, p: Pair, total: bool, d: Head)
    requires HeapOk(h) && Acyclic(h, rank) && PairOk(h, p)
  {
    match d
    case Result(res) => Meaning(res) == CompareVals(h, rank, p, total) != Equal
    case Same => CompareVals(h, rank, p, total) == Equal
    case Descend(vs, us) =>
      && p.0.Ptr? && p.1.Ptr? && h[p.0.a].Block? && h[p.1.a].Block? && h[p.0.a].tag == h[p.1.a].tag
      && vs == h[p.0.a].fields && us == h[p.1.a].fields && |vs| == |us|
  }

  lemma UnfoldHead(h: Heap, rank: map<Addr, nat>, v: Val)
    requires HeapOk(h) && Acyclic(h, rank) && ValOk(h, v)
    ensures var t := Unfold(h, rank, v);
      && (t.IntTree? <==> v.Long?) && (v.Long? ==> t.n == v.n)
      && (!v.Long? ==> TagOf(t) == ValTag(h, v) && |Kids(t)| == ValSize(h, v))
      && (t.LeafTree? <==> v.Ptr? && !h[v.a].Block?) && (t.LeafTree? ==> t.o == h[v.a])
      && (t.AtomTree? <==> v.Atom?)
  {
    if v.Ptr? {
      assert ObjOk(h, h[v.a]);
    }
  }

  /** One turn of the loop up to its switch on the tag. */
  method CompareHead(h: Heap, ghost rank: map<Addr, nat>, v1: Val, v2: Val, total: bool) returns (d: Head)
    requires HeapOk(h) && Acyclic(h, rank) && PairOk(h, (v1, v2)) && DataHeap(h, v1)
    ensures HeadRight(h, rank, (v1, v2), total, d)
  {
    UnfoldHead(h, rank, v1);
    UnfoldHead(h, rank, v2);
    if v1 == v2 && total {
      UnfoldData(h, rank, v1);
      TreesReflexive(Unfold(h, rank, v1));
      return Same;
    }
    if v1.Long? {
      if v1 == v2 {
        return Same;
      }
      return Result(if v2.Long? then v1.n - v2.n else -1);
    }
    if v2.Long? {
      return Result(1);
    }
    var t1, t2 := ValTag(h, v1), ValTag(h, v2);
    if t1 != t2 {
      SmallTags(h, v1);
      SmallTags(h, v2);
      return Result((t1 as int) - (t2 as int));
    }
    d := CompareSameTag(h, rank, v1, v2, total);
  }

  lemma SmallTags(h: Heap, v: Val)
    requires HeapOk(h) && ValOk(h, v) && !v.Long?
    ensures ValTag(h, v) < 256 && ValSize(h, v) <= MAX_WOSIZE
  {
    if v.Ptr? {
      assert ObjOk(h, h[v.a]);
    }
  }

  /** The switch on the tag of two blocks. */
  method CompareSameTag(h: Heap, ghost rank: map<Addr, nat>, v1: Val, v2: Val, total: bool) returns (d: Head)
    requires HeapOk(h) && Acyclic(h, rank) && PairOk(h, (v1, v2)) && !v1.Long? && !v2.Long?
    requires ValTag(h, v1) == ValTag(h, v2)
    ensures HeadRight(h, rank, (v1, v2), total, d)
  {
    UnfoldHead(h, rank, v1);
    UnfoldHead(h, rank, v2);
    SmallTags(h, v1);
    SmallTags(h, v2);
    if v1.Ptr? && !h[v1.a].Block? {
      LeafPartner(h, v1, v2);
      d := CompareLeafPair(h[v1.a], h[v2.a], total);
    } else {
      LeafPartner(h, v2, v1);
      if ValSize(h, v1) != ValSize(h, v2) {
        return Result(ValSize(h, v1) - ValSize(h, v2));
      }
      if ValSize(h, v1) == 0 {
        return Same;
      }
      d := Descend(h[v1.a].fields, h[v2.a].fields);
    }
  }

  /** Two values with the same tag are both strings, both doubles and so on, or both
      ordinary blocks. */
  lemma LeafPartner(h: Heap, v1: Val, v2: Val)
    requires HeapOk(h) && ValOk(h, v1) && ValOk(h, v2) && DataVal(v1) && DataVal(v2) && !v1.Long? && !v2.Long?
    requires ValTag(h, v1) == ValTag(h, v2)
    ensures v1.Ptr? && !h[v1.a].Block? ==> v2.Ptr? && !h[v2.a].Block? && ObjOk(h, h[v1.a]) && ObjOk(h, h[v2.a])
    ensures v1.Ptr? && !h[v1.a].Block? ==>
      h[v1.a].Str? == h[v2.a].Str? && h[v1.a].Dbl? == h[v2.a].Dbl?
  {
    if v1.Ptr? {
      assert ObjOk(h, h[v1.a]);
    }
    if v2.Ptr? {
      assert ObjOk(h, h[v2.a]);
    }
  }

  method CompareLeafPair(o: Obj, o': Obj, total: bool) returns (d: Head)
    requires !o.Block? && !o'.Block? && o.Str? == o'.Str? && o.Dbl? == o'.Dbl?
    requires o.Str? ==> |o.bytes| < 0x1000_0000_0000_0000 && |o'.bytes| < 0x1000_0000_0000_0000
    requires o.DblArr? ==> |o.ds| <= MAX_WOSIZE && |o'.ds| <= MAX_WOSIZE
    ensures d.Result? ==> Meaning(d.res) == CompareLeaves(o, o', total) != Equal
    ensures d.Same? ==> CompareLeaves(o, o', total) == Equal
    ensures !d.Descend?
  {
    var r: Option<int>;
    if o.Str? {
      r := CompareStrings(o.bytes, o'.bytes);
    } else if o.Dbl? {
      r := CompareDouble(o.d, o'.d, total);
    } else if |o.ds| != |o'.ds| {
      r := Some(|o.ds| - |o'.ds|);
    } else {
      r := CompareDoubleArrays(o.ds, o'.ds, total);
    }
    d := HeadOf(r);
  }

  const STACK_INIT_SIZE: nat := 8
  const STACK_MIN_ALLOC_SIZE: nat := 32
  const STACK_MAX_SIZE: nat := 1024 * 1024

  /** compare_resize_stack: the limit with room for one more entry, if any. */
  function Room(depth: nat, limit: nat): Option<nat> {
    if depth < limit then Some(limit)
    else if limit == STACK_INIT_SIZE then Some(STACK_MIN_ALLOC_SIZE)
    else if 2 * limit >= STACK_MAX_SIZE then None
    else Some(2 * limit)
  }

  lemma {:induction false} ForestSize(ts: seq<Tree>)
    ensures |ts| <= ForestWeight(ts)
    decreases |ts|
  {
    if ts != [] {
      ForestSize(ts[1..]);
    }
  }

  /** Values of this many nodes or less always get a verdict. */
  const ALWAYS_COMPARED: nat := 0x8_0000

  lemma Overflows(h: Heap, rank: map<Addr, nat>, cur: Pair, stack: seq<seq<Pair>>)
    requires HeapOk(h) && Acyclic(h, rank) && RunsOk(stack) && PairsOk(h, [cur] + Flat(stack))
    requires |stack| >= ALWAYS_COMPARED
    ensures ForestWeight(Lefts(h, rank, [cur] + Flat(stack))) > ALWAYS_COMPARED
  {
    FlatLength(stack);
    ForestSize(Lefts(h, rank, [cur] + Flat(stack)));
  }

  /** do_compare_val: the verdict of the recursive comparison, or None when the stack
      would exceed its maximal size. */
  method DoCompareVal(h: Heap, ghost rank: map<Addr, nat>, v1: Val, v2: Val, total: bool) returns (res: Option<int>)
    requires HeapOk(h) && Acyclic(h, rank) && PairOk(h, (v1, v2)) && DataHeap(h, v1)
    ensures res.Some? ==> Meaning(res.value) == CompareTrees(Unfold(h, rank, v1), Unfold(h, rank, v2), total)
    ensures res.Some? ==> Right(h, rank, v1, v2, total, Meaning(res.value))
    ensures res == None ==> Weight(Unfold(h, rank, v1)) > ALWAYS_COMPARED
  {
    var cur, stack: seq<seq<Pair>>, limit: nat := (v1, v2), [], STACK_INIT_SIZE;
    ghost var rest: seq<Pair>, all := [], CompareVals(h, rank, cur, total);
    assert [cur] + rest == [cur];
    SinglePair(h, rank, cur, total);
    VerdictRight(h, rank, v1, v2, total);
    while true
      invariant RunsOk(stack) && rest == Flat(stack) && PairsOk(h, [cur] + rest)
      invariant ComparePairs(h, rank, [cur] + rest, total) == all
      invariant ForestWeight(Lefts(h, rank, [cur] + rest)) <= Weight(Unfold(h, rank, v1))
      decreases ForestWeight(Lefts(h, rank, [cur] + rest))
    {
      var d := NextHead(h, rank, cur, rest, total);
      if d.Result? {
        return Some(d.res);
      }
      if d.Descend? {
        if |d.vs| > 1 {
          var room := Room(|stack|, limit);
          if room == None {
            Overflows(h, rank, cur, stack);
            return None;
          }
          limit := room.value;
        }
        var ps := Zip(d.vs, d.us);
        EnterRun(ps, stack);
        cur, stack := ps[0], Push(ps[1..], stack);
      } else {
        if stack == [] {
          return Some(0);
        }
        PopFlat(stack);
        cur, stack := stack[0][0], Pop(stack);
      }
      rest := Flat(stack);
    }
  }

  /** With the current pair dealt with, the pairs `left` decide, and they are less. */
  ghost predicate Leaves(h: Heap, rank: map<Addr, nat>, cur: Pair, rest: seq<Pair>, left: seq<Pair>, total: bool)
    requires HeapOk(h) && Acyclic(h, rank) && PairsOk(h, [cur] + rest)
  {
    && PairsOk(h, left) && ComparePairs(h, rank, [cur] + rest, total) == ComparePairs(h, rank, left, total)
    && ForestWeight(Lefts(h, rank, left)) < ForestWeight(Lefts(h, rank, [cur] + rest))
  }

  /** The head of the current pair, and what it leaves of all the pairs. */
  method NextHead(h: Heap, ghost rank: map<Addr, nat>, cur: Pair, ghost rest: seq<Pair>, total: bool) returns (d: Head)
    requires HeapOk(h) && Acyclic(h, rank) && PairsOk(h, [cur] + rest) && DataHeap(h, cur.0)
    ensures d.Result? ==> Meaning(d.res) == ComparePairs(h, rank, [cur] + rest, total)
    ensures d.Same? ==> Leaves(h, rank, cur, rest, rest, total)
    ensures d.Descend? ==> |d.vs| == |d.us| > 0 && Leaves(h, rank, cur, rest, Zip(d.vs, d.us) + rest, total)
  {
    assert ([cur] + rest)[0] == cur && PairOk(h, cur);
    assert PairsOk(h, rest) by {
      assert forall i :: 0 <= i < |rest| ==> rest[i] == ([cur] + rest)[i + 1];
    }
    SinglePair(h, rank, cur, total);
    PairsAppend(h, rank, [cur], rest, total);
    d := CompareHead(h, rank, cur.0, cur.1, total);
    if d.Descend? {
      assert ObjOk(h, h[cur.0.a]);
      BlocksCompare(h, rank, cur.0.a, cur.1.a, total);
      PairsAppend(h, rank, Zip(d.vs, d.us), rest, total);
    }
  }

  /** caml_compare and the relational wrappers, on the result of compare_val. */
  function CamlCompare(res: int): int {
    if res < 0 then -1 else if res > 0 then 1 else 0
  }

  lemma Wrappers(res: int)
    ensures Meaning(res) != Unordered ==>
      (CamlCompare(res) == -1 <==> Meaning(res) == Less) && (CamlCompare(res) == 1 <==> Meaning(res) == Greater)
    ensures res == 0 <==> Meaning(res) == Equal                                             // caml_equal
    ensures res < 0 && res != UNORDERED <==> Meaning(res) == Less                           // caml_lessthan
    ensures res <= 0 && res != UNORDERED <==> Meaning(res) == Less || Meaning(res) == Equal // caml_lessequal
    ensures res > 0 <==> Meaning(res) == Greater                                            // caml_greaterthan
    ensures res >= 0 <==> Meaning(res) == Greater || Meaning(res) == Equal                  // caml_greaterequal
  {
  }
}
