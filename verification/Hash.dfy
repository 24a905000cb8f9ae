/**
  Polymorphic hashing (`runtime/hash.c`): a breadth-first walk with a bounded queue and a
  bounded number of meaningful values. Values that total comparison finds equal hash
  alike, although comparison goes depth first.
 */
module Hash {

  import opened Bitwise
  import opened Common
  import opened MarshalFormat
  import opened MarshalGraph
  import opened MarshalTree
  import opened Compare

  const WORD32: nat := 0x1_0000_0000

  // ------------------------------------------------------------------------- mixing

  /** ROTL32 by n bits, with `up` = 2^n and `down` = 2^(32 - n). */
  function Rotate(x: nat, up: nat, down: nat): nat
    requires down > 0
  {
    x * up % WORD32 + x / down
  }

  /** MIX(h, d) */
  function Mix(h: nat, d: nat): nat {
    var d1 := Rotate(d * 0xcc9e2d51 % WORD32, 0x8000, 0x2_0000) * 0x1b873593 % WORD32;
    (Rotate(Xor(h, d1), 0x2000, 0x8_0000) * 5 + 0xe6546b64) % WORD32
  }

  /** FINAL_MIX(h) */
  function FinalMix(h: nat): nat {
    var h1 := Xor(h, h / 0x1_0000) * 0x85ebca6b % WORD32;
    var h2 := Xor(h1, h1 / 0x2000) * 0xc2b2ae35 % WORD32;
    Xor(h2, h2 / 0x1_0000)
  }

  /** The same, folded to 30 bits. */
  function Finish(h: nat): nat {
    FinalMix(h) % 0x4000_0000
  }

  /** The 32-bit word that caml_hash_mix_intnat makes of a signed 64-bit word. */
  function IntWord(d: int): nat {
    Xor(Xor(d / WORD32 % WORD32, if d < 0 then WORD32 - 1 else 0), d % WORD32)
  }

  /** The rolling hash changes by mixing a word in, or by exclusive or with a length. */
  datatype Step = MixWord(w: nat) | XorWord(w: nat)

  function Turn(h: nat, s: Step): nat {
    if s.MixWord? then Mix(h, s.w) else Xor(h, s.w)
  }

  function Run(h: nat, steps: seq<Step>): nat {
    if steps == [] then h else Turn(Run(h, steps[..|steps| - 1]), steps[|steps| - 1])
  }

  lemma RunStep(h: nat, steps: seq<Step>, s: Step)
    ensures Run(h, steps + [s]) == Turn(Run(h, steps), s)
  {
    assert (steps + [s])[..|steps|] == steps;
  }

  lemma {:induction false} RunAppend(h: nat, steps: seq<Step>, more: seq<Step>)
    ensures Run(h, steps + more) == Run(Run(h, steps), more)
    decreases |more|
  {
    if more == [] {
      assert steps + more == steps;
    } else {
      var n := |more| - 1;
      RunAppend(h, steps, more[..n]);
      assert steps + more == steps + more[..n] + [more[n]];
      RunStep(h, steps + more[..n], more[n]);
    }
  }

  /** The halves of a double, with one NaN and one zero. */
  function NormalHigh(d: Double): nat {
    if HashNaN(d) then EXPONENT else if High(d) == SIGN && Low(d) == 0 then 0 else High(d)
  }

  function NormalLow(d: Double): nat {
    if HashNaN(d) then 1 else Low(d)
  }

  /** The NaN test of the hash function: exponent all ones, mantissa not zero. */
  predicate HashNaN(d: Double) {
    High(d) / 0x10_0000 % 0x800 == 0x7FF && (Low(d) != 0 || High(d) % 0x10_0000 != 0)
  }

  function DoubleSteps(d: Double): seq<Step> {
    [MixWord(NormalLow(d)), MixWord(NormalHigh(d))]
  }

  lemma HalvesBound(d: Double)
    ensures Low(d) < WORD32 && High(d) < WORD32
  {
  }

  /** The two tests for NaN, here and in comparison, agree. */
  lemma NaNTests(d: Double)
    ensures HashNaN(d) <==> KeyOf(d) == NaN
  {
    HalvesBound(d);
    NaNArithmetic(High(d), Low(d));
  }

  lemma NaNArithmetic(hi: nat, lo: nat)
    requires hi < WORD32 && lo < WORD32
    ensures (hi / 0x10_0000 % 0x800 == 0x7FF && (lo != 0 || hi % 0x10_0000 != 0)) <==>
            hi % SIGN * WORD32 + lo > EXPONENT * WORD32
  {
    var m := hi % SIGN;
    assert m / 0x10_0000 == hi / 0x10_0000 % 0x800 && m % 0x10_0000 == hi % 0x10_0000;
  }

  /** Numbers with the same magnitude have the same halves, the sign apart. */
  lemma SameHalves(hi: nat, lo: nat, hi': nat, lo': nat)
    requires hi < WORD32 && lo < WORD32 && hi' < WORD32 && lo' < WORD32
    requires hi % SIGN * WORD32 + lo == hi' % SIGN * WORD32 + lo'
    ensures lo == lo' && (hi == hi' || hi == hi' + SIGN || hi' == hi + SIGN)
    ensures hi % SIGN * WORD32 + lo == 0 <==> lo == 0 && (hi == 0 || hi == SIGN)
  {
    var m, m' := hi % SIGN, hi' % SIGN;
    assert hi == m || hi == m + SIGN;
    assert hi' == m' || hi' == m' + SIGN;
    assert m == m' by {
      assert m * WORD32 <= m * WORD32 + lo < (m + 1) * WORD32;
      assert m' * WORD32 <= m' * WORD32 + lo' < (m' + 1) * WORD32;
    }
  }

  /** Doubles with the same key, both zeros and all NaNs included, mix alike. */
  lemma SameKeyMix(d: Double, e: Double)
    requires KeyOf(d) == KeyOf(e)
    ensures DoubleSteps(d) == DoubleSteps(e)
  {
    NaNTests(d);
    NaNTests(e);
    HalvesBound(d);
    HalvesBound(e);
    if KeyOf(d).Num? {
      SameNumbers(High(d), Low(d), High(e), Low(e));
    }
  }

  lemma SameNumbers(hi: nat, lo: nat, hi': nat, lo': nat)
    requires hi < WORD32 && lo < WORD32 && hi' < WORD32 && lo' < WORD32
    requires (if hi >= SIGN then -((hi % SIGN * WORD32 + lo) as int) else hi % SIGN * WORD32 + lo) ==
             (if hi' >= SIGN then -((hi' % SIGN * WORD32 + lo') as int) else hi' % SIGN * WORD32 + lo')
    ensures lo == lo'
    ensures (if hi == SIGN && lo == 0 then 0 else hi) == (if hi' == SIGN && lo' == 0 then 0 else hi')
  {
    SameHalves(hi, lo, hi', lo');
  }

  // ----------------------------------------------------------------- equal values

  /** Same shape and contents, doubles up to their keys. */
  ghost predicate Same(t: Tree, u: Tree)
    decreases t
  {
    match t
    case IntTree(n) => u == t
    case AtomTree(tag) => u == t
    case LeafTree(o) => u.LeafTree? && SameLeaf(o, u.o)
    case NodeTree(tag, kids) =>
      && u.NodeTree? && u.tag == tag && |u.kids| == |kids|
      && forall i :: 0 <= i < |kids| ==> Same(kids[i], u.kids[i])
  }

  predicate SameLeaf(o: Obj, o': Obj) {
    match o
    case Str(bytes) => o' == o
    case Dbl(d) => o'.Dbl? && KeyOf(d) == KeyOf(o'.d)
    case DblArr(ds) => o'.DblArr? && SameKeys(ds, o'.ds)
    case Block(_, _) => false
  }

  predicate SameKeys(s: seq<Double>, t: seq<Double>) {
    |s| == |t| && forall i :: 0 <= i < |s| ==> KeyOf(s[i]) == KeyOf(t[i])
  }

  ghost predicate AllSame(ts: seq<Tree>, us: seq<Tree>) {
    |ts| == |us| && forall i :: 0 <= i < |ts| ==> Same(ts[i], us[i])
  }

  lemma {:induction false} EqualBytes(s: seq<byte>, t: seq<byte>)
    ensures CompareBytes(s, t) == Equal <==> s == t
    decreases |s|
  {
    if s != [] && t != [] && s[0] == t[0] {
      EqualBytes(s[1..], t[1..]);
      assert s == [s[0]] + s[1..] && t == [t[0]] + t[1..];
    }
  }

  lemma {:induction false} EqualDoubles(s: seq<Double>, t: seq<Double>)
    requires |s| == |t|
    ensures CompareDoubles(s, t, true) == Equal <==> SameKeys(s, t)
    decreases |s|
  {
    if s != [] {
      EqualDoubles(s[1..], t[1..]);
      KeysEqual(KeyOf(s[0]), KeyOf(t[0]));
      if SameKeys(s[1..], t[1..]) && KeyOf(s[0]) == KeyOf(t[0]) {
        forall i | 0 <= i < |s| ensures KeyOf(s[i]) == KeyOf(t[i]) {
          assert i > 0 ==> s[i] == s[1..][i - 1] && t[i] == t[1..][i - 1];
        }
      }
    }
  }

  lemma KeysEqual(a: Key, b: Key)
    ensures CompareKeys(a, b, true) == Equal <==> a == b
  {
  }

  /** Total comparison gives 0 exactly on values that are the same. */
  lemma {:induction false} EqualTrees(t: Tree, u: Tree)
    requires Data(t) && Data(u)
    ensures CompareTrees(t, u, true) == Equal <==> Same(t, u)
    decreases t, 0
  {
    if t.LeafTree? && u.LeafTree? {
      EqualLeaves(t.o, u.o);
    } else if !t.IntTree? && !u.IntTree? && TagOf(t) == TagOf(u) {
      TagsOfData(t);
      TagsOfData(u);
      if t.NodeTree? && u.NodeTree? && |t.kids| == |u.kids| {
        EqualForests(t.kids, u.kids);
      }
    }
  }

  lemma EqualLeaves(o: Obj, o': Obj)
    requires !o.Block? && !o'.Block?
    ensures TagOf(LeafTree(o)) == TagOf(LeafTree(o')) && CompareLeaves(o, o', true) == Equal <==> SameLeaf(o, o')
  {
    if o.Str? && o'.Str? {
      EqualBytes(o.bytes, o'.bytes);
    } else if o.Dbl? && o'.Dbl? {
      KeysEqual(KeyOf(o.d), KeyOf(o'.d));
    } else if o.DblArr? && o'.DblArr? && |o.ds| == |o'.ds| {
      EqualDoubles(o.ds, o'.ds);
    }
  }

  lemma {:induction false} EqualForests(ts: seq<Tree>, us: seq<Tree>)
    requires |ts| == |us| && AllData(ts) && AllData(us)
    ensures CompareForests(ts, us, true) == Equal <==> AllSame(ts, us)
    decreases ts, 1
  {
    if ts != [] {
      EqualTrees(ts[0], us[0]);
      EqualForests(ts[1..], us[1..]);
      if AllSame(ts[1..], us[1..]) && Same(ts[0], us[0]) {
        forall i | 0 <= i < |ts| ensures Same(ts[i], us[i]) {
          assert i > 0 ==> ts[i] == ts[1..][i - 1] && us[i] == us[1..][i - 1];
        }
      }
    }
  }

  // -------------------------------------------------------------------- the walk

  /** A 32-bit block of a string, little-endian. */
  function Word(s: seq<byte>): nat
    requires |s| == 4
  {
    (s[0] as nat) + 0x100 * (s[1] as nat) + 0x1_0000 * (s[2] as nat) + 0x100_0000 * (s[3] as nat)
  }

  function TailWord(s: seq<byte>): nat
    requires |s| < 4
  {
    (if |s| > 0 then s[0] as nat else 0) + (if |s| > 1 then 0x100 * (s[1] as nat) else 0)
    + (if |s| > 2 then 0x1_0000 * (s[2] as nat) else 0)
  }

  function ByteSteps(s: seq<byte>): seq<Step>
    decreases |s|
  {
    if |s| >= 4 then [MixWord(Word(s[..4]))] + ByteSteps(s[4..])
    else if |s| == 0 then []
    else [MixWord(TailWord(s))]
  }

  /** The doubles of an array, and how many values may still be seen after them. */
  function ArraySteps(ds: seq<Double>, num: int): (seq<Step>, int)
    decreases |ds|
  {
    if ds == [] then ([], num)
    else if num - 1 <= 0 then (DoubleSteps(ds[0]), num - 1)
    else
      var (steps, left) := ArraySteps(ds[1..], num - 1);
      (DoubleSteps(ds[0]) + steps, left)
  }

  /** The header word of a block without its colour, in 32 bits. */
  function CleanHeader(size: nat, tag: nat): nat {
    (size * 0x400 + tag) % WORD32
  }

  /** What one value contributes to the hash; its fields wait in the queue. */
  function HashHead(t: Tree, num: int): (seq<Step>, int) {
    match t
    case IntTree(n) => ([MixWord(IntWord(2 * n + 1))], num - 1)
    case AtomTree(tag) => ([MixWord(CleanHeader(0, tag))], num)
    case NodeTree(tag, kids) => ([MixWord(CleanHeader(|kids|, tag))], num)
    case LeafTree(Str(s)) => (ByteSteps(s) + [XorWord(|s| % WORD32)], num - 1)
    case LeafTree(Dbl(d)) => (DoubleSteps(d), num - 1)
    case LeafTree(DblArr(ds)) => ArraySteps(ds, num)
    case LeafTree(Block(_, _)) => ([], num)
  }

  /** How many of `n` fields still go into a queue of size `sz` that has had `wr`. */
  function Admitted(n: nat, wr: nat, sz: nat): (k: nat)
    ensures k <= n && (wr < sz ==> wr + k <= sz) && (wr >= sz ==> k == 0)
  {
    if wr >= sz then 0 else if n <= sz - wr then n else sz - wr
  }

  function Left(wr: nat, sz: nat): nat {
    if wr < sz then sz - wr else 0
  }

  /** The walk, with the queue as a sequence: `wr` values have ever been put in it. */
  ghost function Walk(queue: seq<Tree>, wr: nat, sz: nat, num: int): seq<Step>
    decreases 2 * Left(wr, sz) + |queue|
  {
    if queue == [] || num <= 0 then []
    else
      var (steps, num') := HashHead(queue[0], num);
      steps + Walk(Next(queue, wr, sz), wr + Admitted(|Kids(queue[0])|, wr, sz), sz, num')
  }

  /** The queue after its first value: the others, and those fields that get in. */
  ghost function Next(queue: seq<Tree>, wr: nat, sz: nat): (r: seq<Tree>)
    requires queue != []
    ensures |r| == |queue| - 1 + Admitted(|Kids(queue[0])|, wr, sz)
  {
    queue[1..] + Kids(queue[0])[..Admitted(|Kids(queue[0])|, wr, sz)]
  }

  lemma WalkStep(queue: seq<Tree>, wr: nat, sz: nat, num: int)
    requires queue != [] && num > 0
    ensures var k, head := Admitted(|Kids(queue[0])|, wr, sz), HashHead(queue[0], num);
      Walk(queue, wr, sz, num) == head.0 + Walk(Next(queue, wr, sz), wr + k, sz, head.1)
  {
  }

  const QUEUE_SIZE: nat := 256

  function QueueLimit(limit: int): nat {
    if limit < 0 || limit > QUEUE_SIZE then QUEUE_SIZE else limit
  }

  ghost function HashTree(count: int, limit: int, seed: int, t: Tree): nat {
    Finish(Run(seed % WORD32, Walk([t], 1, QueueLimit(limit), count)))
  }

  lemma {:induction false} SameArrays(s: seq<Double>, t: seq<Double>, num: int)
    requires SameKeys(s, t)
    ensures ArraySteps(s, num) == ArraySteps(t, num)
    decreases |s|
  {
    if s != [] {
      SameKeyMix(s[0], t[0]);
      SameArrays(s[1..], t[1..], num - 1);
    }
  }

  lemma SameHead(t: Tree, u: Tree, num: int)
    requires Same(t, u)
    ensures HashHead(t, num) == HashHead(u, num) && AllSame(Kids(t), Kids(u))
  {
    if t.LeafTree? && t.o.Dbl? {
      SameKeyMix(t.o.d, u.o.d);
    } else if t.LeafTree? && t.o.DblArr? {
      SameArrays(t.o.ds, u.o.ds, num);
    }
  }

  lemma {:induction false} SameWalks(ts: seq<Tree>, us: seq<Tree>, wr: nat, sz: nat, num: int)
    requires AllSame(ts, us)
    ensures Walk(ts, wr, sz, num) == Walk(us, wr, sz, num)
    decreases 2 * Left(wr, sz) + |ts|
  {
    if ts != [] && num > 0 {
      SameHead(ts[0], us[0], num);
      SameNext(ts, us, wr, sz);
      WalkStep(ts, wr, sz, num);
      WalkStep(us, wr, sz, num);
      var k := Admitted(|Kids(ts[0])|, wr, sz);
      SameWalks(Next(ts, wr, sz), Next(us, wr, sz), wr + k, sz, HashHead(ts[0], num).1);
    }
  }

  lemma SameNext(ts: seq<Tree>, us: seq<Tree>, wr: nat, sz: nat)
    requires AllSame(ts, us) && ts != [] && AllSame(Kids(ts[0]), Kids(us[0]))
    ensures AllSame(Next(ts, wr, sz), Next(us, wr, sz))
  {
  }

  /** Values that total comparison finds equal have the same hash, whatever the count,
      the limit and the seed. */
  lemma HashAgrees(count: int, limit: int, seed: int, t: Tree, u: Tree)
    requires Data(t) && Data(u) && CompareTrees(t, u, true) == Equal
    ensures HashTree(count, limit, seed, t) == HashTree(count, limit, seed, u)
  {
    EqualTrees(t, u);
    SameWalks([t], [u], 1, QueueLimit(limit), count);
  }

  // -------------------------------------------------------------------- the code

  /** caml_hash_mix_string */
  method HashMixString(h: nat, s: seq<byte>) returns (r: nat)
    ensures r == Run(h, ByteSteps(s) + [XorWord(|s| % WORD32)])
  {
    r := h;
    var i := 0;
    ghost var done: seq<Step> := [];
    while i + 4 <= |s|
      invariant i <= |s| && r == Run(h, done) && done + ByteSteps(s[i..]) == ByteSteps(s)
    {
      assert s[i..][..4] == s[i..i + 4] && s[i..][4..] == s[i + 4..];
      RunStep(h, done, MixWord(Word(s[i..i + 4])));
      Associate(done, [MixWord(Word(s[i..i + 4]))], ByteSteps(s[i + 4..]));
      done := done + [MixWord(Word(s[i..i + 4]))];
      r := Mix(r, Word(s[i..i + 4]));
      i := i + 4;
    }
    if i < |s| {
      RunStep(h, done, MixWord(TailWord(s[i..])));
      r := Mix(r, TailWord(s[i..]));
    } else {
      assert done + [] == done;
    }
    RunStep(h, ByteSteps(s), XorWord(|s| % WORD32));
    r := Xor(r, |s| % WORD32);
  }

  /** caml_hash_mix_double */
  method HashMixDouble(h: nat, d: Double) returns (r: nat)
    ensures r == Run(h, DoubleSteps(d))
  {
    RunStep(h, [], MixWord(NormalLow(d)));
    RunStep(h, [MixWord(NormalLow(d))], MixWord(NormalHigh(d)));
    assert [] + [MixWord(NormalLow(d))] == [MixWord(NormalLow(d))];
    assert [MixWord(NormalLow(d))] + [MixWord(NormalHigh(d))] == DoubleSteps(d);
    r := Mix(h, NormalLow(d));
    r := Mix(r, NormalHigh(d));
  }

  method HashMixDoubles(h: nat, ds: seq<Double>, num: int) returns (r: nat, left: int)
    ensures r == Run(h, ArraySteps(ds, num).0) && left == ArraySteps(ds, num).1
  {
    r, left := h, num;
    var i := 0;
    ghost var done: seq<Step> := [];
    while i < |ds|
      invariant i <= |ds| && r == Run(h, done)
      invariant done + ArraySteps(ds[i..], left).0 == ArraySteps(ds, num).0
      invariant ArraySteps(ds[i..], left).1 == ArraySteps(ds, num).1
    {
      assert ds[i..][1..] == ds[i + 1..];
      RunAppend(h, done, DoubleSteps(ds[i]));
      r := HashMixDouble(r, ds[i]);
      left := left - 1;
      if left <= 0 {
        return;
      }
      Associate(done, DoubleSteps(ds[i]), ArraySteps(ds[i + 1..], left).0);
      done := done + DoubleSteps(ds[i]);
      i := i + 1;
    }
    assert done + [] == done;
  }

  lemma RunOne(h: nat, w: nat)
    ensures Run(h, [MixWord(w)]) == Mix(h, w)
  {
    RunStep(h, [], MixWord(w));
    assert [] + [MixWord(w)] == [MixWord(w)];
  }

  /** The switch on a value taken from the queue. */
  method HashValue(heap: Heap, ghost rank: map<Addr, nat>, v: Val, h: nat, num: int) returns (r: nat, left: int)
    requires HeapOk(heap) && Acyclic(heap, rank) && ValOk(heap, v)
    ensures r == Run(h, HashHead(Unfold(heap, rank, v), num).0) && left == HashHead(Unfold(heap, rank, v), num).1
  {
    r, left := h, num;
    match v
    case Long(n) =>
      RunOne(h, IntWord(2 * n + 1));
      r, left := Mix(h, IntWord(2 * n + 1)), num - 1;
    case Atom(tag) =>
      RunOne(h, CleanHeader(0, tag));
      r := Mix(h, CleanHeader(0, tag));
    case Ptr(a) =>
      assert ObjOk(heap, heap[a]);
      match heap[a]
      case Str(s) =>
        r := HashMixString(h, s);
        left := num - 1;
      case Dbl(d) =>
        r := HashMixDouble(h, d);
        left := num - 1;
      case DblArr(ds) =>
        r, left := HashMixDoubles(h, ds, num);
      case Block(tag, fields) =>
        RunOne(h, CleanHeader(|fields|, tag));
        r := Mix(h, CleanHeader(|fields|, tag));
  }

  /** caml_hash: the queue is an array of 256 values, read at `rd` and written at `wr`. */
  method CamlHash(heap: Heap, ghost rank: map<Addr, nat>, count: int, limit: int, seed: int, obj: Val) returns (r: nat)
    requires HeapOk(heap) && Acyclic(heap, rank) && ValOk(heap, obj)
    ensures r == HashTree(count, limit, seed, Unfold(heap, rank, obj))
  {
    var queue := new Val[QUEUE_SIZE](_ => Long(0));
    var sz, num, h: nat := QueueLimit(limit), count, seed % WORD32;
    queue[0] := obj;
    var rd, wr := 0, 1;
    assert queue[0..1] == [obj];
    assert Trees(heap, rank, queue[rd..wr]) == [Unfold(heap, rank, obj)];
    ghost var trees, n: nat := [Unfold(heap, rank, obj)], 0;
    ghost var plan := Plan(State(trees, 1, count, h), sz);
    while rd < wr && num > 0
      invariant rd <= wr <= QUEUE_SIZE && ValsOk(heap, queue[rd..wr]) && trees == Trees(heap, rank, queue[rd..wr])
      invariant n < |plan| && plan[n] == State(trees, wr, num, h)
      decreases QUEUE_SIZE - rd
    {
      PlanNext(plan, sz, n);
      h, num, wr := HashTurn(heap, rank, queue, rd, wr, sz, h, num, trees);
      rd, n := rd + 1, n + 1;
      trees := plan[n].trees;
    }
    PlanEnd(plan, sz, n);
    r := Finish(h);
  }

  /** The walk, planned ahead: the trees in the queue and the counters before each turn. */
  datatype State = State(trees: seq<Tree>, wr: nat, num: int, h: nat)

  ghost predicate Over(s: State) {
    s.trees == [] || s.num <= 0
  }

  ghost predicate Turns(s: State, sz: nat, s': State) {
    && !Over(s)
    && var (steps, num') := HashHead(s.trees[0], s.num);
       s' == State(Next(s.trees, s.wr, sz), s.wr + Admitted(|Kids(s.trees[0])|, s.wr, sz), num', Run(s.h, steps))
  }

  ghost predicate TurnsAt(plan: seq<State>, sz: nat, i: nat)
    requires i + 1 < |plan|
  {
    Turns(plan[i], sz, plan[i + 1])
  }

  ghost predicate Planned(plan: seq<State>, sz: nat) {
    plan != [] && Over(plan[|plan| - 1]) && forall i: nat :: i + 1 < |plan| ==> TurnsAt(plan, sz, i)
  }

  lemma {:induction false} Plan(s: State, sz: nat) returns (plan: seq<State>)
    ensures Planned(plan, sz) && plan[0] == s
    ensures plan[|plan| - 1].h == Run(s.h, Walk(s.trees, s.wr, sz, s.num))
    decreases 2 * Left(s.wr, sz) + |s.trees|
  {
    if Over(s) {
      plan := [s];
    } else {
      var (steps, num') := HashHead(s.trees[0], s.num);
      var s' := State(Next(s.trees, s.wr, sz), s.wr + Admitted(|Kids(s.trees[0])|, s.wr, sz), num', Run(s.h, steps));
      var plan' := Plan(s', sz);
      RunAppend(s.h, steps, Walk(s'.trees, s'.wr, sz, s'.num));
      WalkStep(s.trees, s.wr, sz, s.num);
      PlanExtend(s, plan', sz);
      plan := [s] + plan';
    }
  }

  lemma PlanExtend(s: State, plan: seq<State>, sz: nat)
    requires Planned(plan, sz) && Turns(s, sz, plan[0])
    ensures Planned([s] + plan, sz)
  {
    forall i: nat | i + 1 < |[s] + plan| ensures TurnsAt([s] + plan, sz, i) {
      if i > 0 {
        assert TurnsAt(plan, sz, i - 1);
      }
    }
  }

  lemma PlanNext(plan: seq<State>, sz: nat, n: nat)
    requires Planned(plan, sz) && n < |plan| && !Over(plan[n])
    ensures n + 1 < |plan| && Turns(plan[n], sz, plan[n + 1])
  {
    assert n + 1 < |plan| ==> TurnsAt(plan, sz, n);
  }

  lemma PlanEnd(plan: seq<State>, sz: nat, n: nat)
    requires Planned(plan, sz) && n < |plan| && Over(plan[n])
    ensures n + 1 == |plan|
  {
    assert n + 1 < |plan| ==> TurnsAt(plan, sz, n);
  }

  /** The body of the loop: takes a value from the queue, mixes it in, and puts its
      fields in the queue. */
  method HashTurn(heap: Heap, ghost rank: map<Addr, nat>, queue: array<Val>, rd: nat, wr: nat, sz: nat, h: nat,
                  num: int, ghost trees: seq<Tree>)
    returns (h': nat, num': int, wr': nat)
    requires HeapOk(heap) && Acyclic(heap, rank) && queue.Length == QUEUE_SIZE && sz <= QUEUE_SIZE
    requires rd < wr <= QUEUE_SIZE && ValsOk(heap, queue[rd..wr]) && trees == Trees(heap, rank, queue[rd..wr])
    modifies queue
    ensures wr' == wr + Admitted(|Kids(trees[0])|, wr, sz) <= QUEUE_SIZE
    ensures ValsOk(heap, queue[rd + 1..wr']) && Trees(heap, rank, queue[rd + 1..wr']) == Next(trees, wr, sz)
    ensures h' == Run(h, HashHead(trees[0], num).0) && num' == HashHead(trees[0], num).1
  {
    var v := queue[rd];
    ghost var before := queue[rd..wr];
    QueueNext(heap, rank, before, wr, sz);
    h', num' := HashValue(heap, rank, v, h, num);
    assert queue[rd + 1..wr] == before[1..];
    wr' := Enqueue(queue, rd + 1, wr, sz, FieldsOf(heap, v));
  }

  function FieldsOf(heap: Heap, v: Val): seq<Val>
    requires ValOk(heap, v)
  {
    if v.Ptr? then Children(heap[v.a]) else []
  }

  /** One turn of the loop, on the values in the queue and on their trees. */
  lemma QueueNext(heap: Heap, rank: map<Addr, nat>, before: seq<Val>, wr: nat, sz: nat)
    requires HeapOk(heap) && Acyclic(heap, rank) && ValsOk(heap, before) && before != []
    ensures ValOk(heap, before[0]) && Trees(heap, rank, before)[0] == Unfold(heap, rank, before[0])
    ensures var fields := FieldsOf(heap, before[0]);
      var k := Admitted(|fields|, wr, sz);
      && |Kids(Unfold(heap, rank, before[0]))| == |fields| && ValsOk(heap, before[1..] + fields[..k])
      && Trees(heap, rank, before[1..] + fields[..k]) == Next(Trees(heap, rank, before), wr, sz)
  {
    var v := before[0];
    assert ValOk(heap, v);
    if v.Ptr? {
      assert ObjOk(heap, heap[v.a]);
    }
    var fields := FieldsOf(heap, v);
    assert Kids(Unfold(heap, rank, v)) == Trees(heap, rank, fields);
    NextQueue(heap, rank, before, fields, Admitted(|fields|, wr, sz));
  }

  /** Fields copied into the queue, as long as there is room. */
  method Enqueue(queue: array<Val>, ghost rd: nat, wr: nat, sz: nat, fields: seq<Val>) returns (wr': nat)
    requires queue.Length == QUEUE_SIZE && rd <= wr <= QUEUE_SIZE && sz <= QUEUE_SIZE
    modifies queue
    ensures wr' == wr + Admitted(|fields|, wr, sz) <= QUEUE_SIZE
    ensures queue[rd..wr'] == old(queue[rd..wr]) + fields[..Admitted(|fields|, wr, sz)]
  {
    wr' := wr;
    var i := 0;
    while i < |fields| && wr' < sz
      invariant i <= |fields| && wr' == wr + i <= QUEUE_SIZE && (i > 0 ==> wr' <= sz)
      invariant queue[rd..wr'] == old(queue[rd..wr]) + fields[..i]
    {
      queue[wr'] := fields[i];
      wr' := wr' + 1;
      i := i + 1;
    }
  }

  lemma NextQueue(heap: Heap, rank: map<Addr, nat>, before: seq<Val>, fields: seq<Val>, k: nat)
    requires HeapOk(heap) && Acyclic(heap, rank) && ValsOk(heap, before) && ValsOk(heap, fields) && before != []
    requires k <= |fields|
    ensures ValsOk(heap, before[1..] + fields[..k])
    ensures Trees(heap, rank, before[1..] + fields[..k]) ==
            Trees(heap, rank, before)[1..] + Trees(heap, rank, fields)[..k]
  {
  }
}
