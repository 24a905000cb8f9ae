/**
  The writer of `runtime/extern.c` as it runs: one loop over a current value and an
  explicit stack, the position table when sharing is kept, the output and the counters
  that go into the header. It is proved to emit the items of the traversal.
 */
module MarshalWriter {

  import opened Arithmetic
  import opened Common
  import opened MarshalFormat
  import opened MarshalGraph
  import opened MarshalStream
  import opened MarshalTree
  import opened RunStack
  import PositionTable

  // ------------------------------------------------------------ what is counted

  /** Words that the object of an item takes in a 64-bit heap, its header included. */
  function ItemWords(t: Item): nat {
    if t.IntItem? || t.SharedItem? || (t.BlockItem? && t.size == 0) then 0 else 1 + Wosize(Blank(t))
  }

  /** The same in a 32-bit heap. */
  function ItemWords32(t: Item): nat {
    match t
    case IntItem(_) => 0
    case SharedItem(_) => 0
    case BlockItem(_, size) => if size == 0 then 0 else 1 + size
    case StringItem(bytes) => 1 + (|bytes| + 4) / 4
    case DoubleItem(_) => 3
    case DoubleArrayItem(ds) => 1 + 2 * |ds|
  }

  /** The bytes that the object of an item holds in a heap with words of `word` bytes, if it
      has one. */
  function ItemBytes(t: Item, word: nat): Option<nat> {
    match t
    case IntItem(_) => None
    case SharedItem(_) => None
    case BlockItem(_, size) => if size == 0 then None else Some(word * size)
    case StringItem(bytes) => Some(|bytes| + 1)
    case DoubleItem(d) => Some(|d|)
    case DoubleArrayItem(ds) => Some(8 * |ds|)
  }

  /** A header, and the fewest words that hold them. */
  ghost predicate Holds(words: nat, bytes: Option<nat>, word: nat) {
    if bytes == None then words == 0
    else words > 0 && bytes.value <= word * (words - 1) < bytes.value + word
  }

  lemma WordsHoldItems(t: Item)
    ensures Holds(ItemWords(t), ItemBytes(t, 8), 8) && Holds(ItemWords32(t), ItemBytes(t, 4), 4)
  {
    if ItemWords(t) > 0 {
      WordsHold(Blank(t));
    }
  }

  /** The flag COMPAT_32 lets pass what a 32-bit machine can have: integers of 31 bits, and
      objects with a size of 22 bits. */
  lemma Fits32Means(t: Item)
    ensures Fits32(t) <==>
      (t.IntItem? ==> -(Pow2(30) as int) <= t.n < Pow2(30)) && (ItemWords32(t) > 0 ==> ItemWords32(t) - 1 < Pow2(22))
  {
    assert Pow2(10) == 0x400 && Pow2(8) == 0x100;
    Pow2Sum(20, 2);
    Pow2Sum(10, 10);
    Pow2Sum(20, 10);
  }

  /** Words of several items. */
  ghost function Words64(items: seq<Item>): nat {
    if items == [] then 0 else Words64(items[..|items| - 1]) + ItemWords(items[|items| - 1])
  }

  ghost function Words32(items: seq<Item>): nat {
    if items == [] then 0 else Words32(items[..|items| - 1]) + ItemWords32(items[|items| - 1])
  }

  lemma WordsAppend(items: seq<Item>, t: Item)
    ensures Words64(items + [t]) == Words64(items) + ItemWords(t)
    ensures Words32(items + [t]) == Words32(items) + ItemWords32(t)
  {
    assert (items + [t])[..|items|] == items;
  }

  lemma {:induction false} WordsPrepend(t: Item, items: seq<Item>)
    ensures Words64([t] + items) == ItemWords(t) + Words64(items)
    decreases |items|
  {
    if items == [] {
      assert [t] + items == [] + [t];
      WordsAppend([], t);
    } else {
      var init, last := items[..|items| - 1], items[|items| - 1];
      WordsPrepend(t, init);
      assert [t] + items == [t] + init + [last];
      WordsAppend([t] + init, last);
    }
  }

  // ------------------------------------------------------------- what is written

  ghost function Concat(chunks: seq<seq<byte>>): seq<byte> {
    if chunks == [] then [] else Concat(chunks[..|chunks| - 1]) + chunks[|chunks| - 1]
  }

  /** Chunk number i holds the bytes of item number i. */
  ghost predicate ChunkOf(chunks: seq<seq<byte>>, items: seq<Item>, i: nat)
    requires i < |chunks| == |items|
  {
    ItemOk(items[i]) && chunks[i] == WriteItem(items[i])
  }

  ghost predicate Chunked(chunks: seq<seq<byte>>, items: seq<Item>) {
    |chunks| == |items| && forall i: nat :: i < |items| ==> ChunkOf(chunks, items, i)
  }

  lemma ChunkedAppend(chunks: seq<seq<byte>>, items: seq<Item>, t: Item)
    requires Chunked(chunks, items) && ItemsOk(items) && ItemOk(t)
    ensures Chunked(chunks + [WriteItem(t)], items + [t]) && ItemsOk(items + [t])
    ensures Concat(chunks + [WriteItem(t)]) == Concat(chunks) + WriteItem(t)
  {
    var chunks', items' := chunks + [WriteItem(t)], items + [t];
    assert chunks'[..|chunks|] == chunks;
    forall i: nat | i < |items'| ensures ChunkOf(chunks', items', i) {
      if i < |items| {
        assert ChunkOf(chunks, items, i);
      }
    }
  }

  /** The chunks put together are the stream of the items. */
  lemma {:induction false} ChunkedStream(chunks: seq<seq<byte>>, items: seq<Item>)
    requires Chunked(chunks, items) && ItemsOk(items)
    ensures Concat(chunks) == WriteItems(items)
    decreases |items|
  {
    if items != [] {
      var n := |items| - 1;
      var items', t := items[..n], items[n];
      assert items == items' + [t];
      forall i: nat | i < n ensures ChunkOf(chunks[..n], items', i) {
        assert ChunkOf(chunks, items, i);
      }
      ChunkedStream(chunks[..n], items');
      WriteItemsAppend(items', t);
      assert ChunkOf(chunks, items, n);
    }
  }

  // --------------------------------------------------- what is still to be done

  /** One turn of the loop on its pending values, in either mode. */
  ghost function Advance(h: Heap, sharing: bool, w: Writer): (Item, Writer)
    requires ValsOk(h, w.work) && w.work != []
  {
    if sharing || !w.work[0].Ptr? then WriteStep(h, w)
    else (ItemOf(h[w.work[0].a]), Writer(Children(h[w.work[0].a]) + w.work[1..], w.seen))
  }

  lemma AdvanceOk(h: Heap, sharing: bool, w: Writer)
    requires HeapOk(h) && WriterOk(h, w) && w.work != []
    ensures WriterOk(h, Advance(h, sharing, w).1) && ItemOk(Advance(h, sharing, w).0)
  {
    assert ValOk(h, w.work[0]);
    StepItemOk(h, w);
    WriteStepOk(h, w);
    if !sharing && w.work[0].Ptr? {
      PowValues();
      assert ObjOk(h, h[w.work[0].a]);
    }
  }

  lemma AdvanceCases(h: Heap, sharing: bool, v: Val, rest: seq<Val>, seen: seq<Addr>)
    requires ValsOk(h, [v] + rest) && ValOk(h, v)
    ensures v.Ptr? && (sharing ==> v.a !in seen) ==>
      Advance(h, sharing, Writer([v] + rest, seen)) ==
        (ItemOf(h[v.a]), Writer(Children(h[v.a]) + rest, if sharing then seen + [v.a] else seen))
    ensures !(v.Ptr? && (sharing ==> v.a !in seen)) ==>
      Advance(h, sharing, Writer([v] + rest, seen)).1 == Writer([] + rest, seen)
  {
    assert ([v] + rest)[0] == v && ([v] + rest)[1..] == rest && [] + rest == rest;
  }

  lemma PlainHead(h: Heap, rank: map<Addr, nat>, w: Writer)
    requires HeapOk(h) && WriterOk(h, w) && Acyclic(h, rank) && w.work != []
    ensures Trees(h, rank, w.work)[0] == Unfold(h, rank, w.work[0])
    ensures HeadItem(Unfold(h, rank, w.work[0])) == Advance(h, false, w).0
  {
    assert ValOk(h, w.work[0]);
  }

  lemma TreesAppend(h: Heap, rank: map<Addr, nat>, vs: seq<Val>, us: seq<Val>)
    requires HeapOk(h) && Acyclic(h, rank) && ValsOk(h, vs) && ValsOk(h, us) && ValsOk(h, vs + us)
    ensures Trees(h, rank, vs + us) == Trees(h, rank, vs) + Trees(h, rank, us)
  {
  }

  lemma UnfoldKids(h: Heap, rank: map<Addr, nat>, a: Addr)
    requires HeapOk(h) && Acyclic(h, rank) && a in h && ValsOk(h, Children(h[a]))
    ensures Kids(Unfold(h, rank, Ptr(a))) == Trees(h, rank, Children(h[a]))
  {
  }

  lemma PlainRest(h: Heap, rank: map<Addr, nat>, v: Val, rest: seq<Val>)
    requires HeapOk(h) && Acyclic(h, rank) && ValOk(h, v) && ValsOk(h, rest) && v.Ptr?
    requires ValsOk(h, Children(h[v.a])) && ValsOk(h, Children(h[v.a]) + rest) && ValsOk(h, [v] + rest)
    ensures Rest(Trees(h, rank, [v] + rest)) == Trees(h, rank, Children(h[v.a]) + rest)
  {
    UnfoldKids(h, rank, v.a);
    TreesAppend(h, rank, Children(h[v.a]), rest);
    var trees := Trees(h, rank, [v] + rest);
    assert trees[0] == Unfold(h, rank, v);
    assert trees[1..] == Trees(h, rank, rest);
    assert Rest(trees) == Kids(trees[0]) + trees[1..];
  }

  lemma PlainTrees(h: Heap, rank: map<Addr, nat>, w: Writer)
    requires HeapOk(h) && WriterOk(h, w) && Acyclic(h, rank) && w.work != []
    requires WriterOk(h, Advance(h, false, w).1)
    ensures Rest(Trees(h, rank, w.work)) == Trees(h, rank, Advance(h, false, w).1.work)
  {
    var v, rest := w.work[0], w.work[1..];
    assert ValOk(h, v) && ValsOk(h, rest);
    assert w.work == [v] + rest;
    if v.Ptr? {
      assert ObjOk(h, h[v.a]);
      PlainRest(h, rank, v, rest);
    } else {
      var trees := Trees(h, rank, w.work);
      assert Rest(trees) == trees[1..] == Trees(h, rank, rest);
    }
  }

  // ------------------------------------------------------- positions of objects

  /** The contents of the table: every object written, at its place in `seen`. */
  ghost function Positions(seen: seq<Addr>): map<Addr, nat> {
    map a | a in seen :: IndexOf(seen, a)
  }

  lemma PositionsAppend(seen: seq<Addr>, a: Addr)
    requires a !in seen
    ensures Positions(seen + [a]) == Positions(seen)[a := |seen|]
    ensures |Positions(seen + [a])| == |Positions(seen)| + 1
  {
    IndexOfLast(seen, a);
    assert (seen + [a])[|seen|] == a;
    forall b | b in seen ensures IndexOf(seen + [a], b) == IndexOf(seen, b) {
      IndexOfAppend(seen, a, b);
    }
    assert Positions(seen + [a]) == Positions(seen)[a := |seen|];
    assert Positions(seen)[a := |seen|].Keys == Positions(seen).Keys + {a};
  }

  // ------------------------------------------------------------------- the writer

  datatype Outcome = Done | OutOfMemory | StackOverflow | Incompatible

  const STACK_INIT_SIZE: nat := 256
  const STACK_MAX_SIZE: nat := 1024 * 1024 * 100

  /** The size that is not doubled any more. */
  const STACK_ENTRIES: nat := 0x400_0000

  /** extern_resize_stack: the limit that makes room for one more entry, if any. */
  function Room(depth: nat, limit: nat): Option<nat> {
    if depth + 1 < limit then Some(limit)
    else if 2 * limit >= STACK_MAX_SIZE then None
    else Some(2 * limit)
  }

  /** The limit is 256 entries, doubled up to 18 times. */
  ghost predicate Limit(limit: nat, k: nat) {
    k <= 18 && limit == STACK_INIT_SIZE * Pow2(k)
  }

  ghost predicate LimitOk(limit: nat) {
    exists k :: Limit(limit, k)
  }

  lemma LimitReached(limit: nat, k: nat)
    requires Limit(limit, k)
    ensures if 2 * limit >= STACK_MAX_SIZE then limit == STACK_ENTRIES else Limit(2 * limit, k + 1)
  {
    assert Pow2(4) == 16 && Pow2(8) == 256 && Pow2(12) == 4096;
    assert Pow2(15) == 32768 && Pow2(17) == 131072;
    if k < 18 {
      Pow2Monotone(k, 17);
    }
  }

  /** The stack overflows only when 2^26 - 1 entries are in use. */
  lemma RoomOk(depth: nat, limit: nat)
    requires LimitOk(limit)
    ensures match Room(depth, limit) case Some(l) => LimitOk(l) case None => depth + 1 >= STACK_ENTRIES
  {
    var k :| Limit(limit, k);
    LimitReached(limit, k);
  }

  /** The turns of the loop, planned ahead: the writer before and after turn i. */
  ghost predicate Turn(h: Heap, sharing: bool, plan: seq<Writer>, items: seq<Item>, i: nat)
    requires i < |items| == |plan| - 1
  {
    && WriterOk(h, plan[i]) && plan[i].work != [] && ItemOk(items[i])
    && Advance(h, sharing, plan[i]) == (items[i], plan[i + 1])
  }

  ghost predicate Planned(h: Heap, sharing: bool, plan: seq<Writer>, items: seq<Item>) {
    && |plan| == |items| + 1 && plan[|items|].work == []
    && forall i: nat :: i < |items| ==> Turn(h, sharing, plan, items, i)
  }

  /** With sharing the plan is the traversal of the graph. */
  lemma {:induction false} PlanShared(h: Heap, w: Writer) returns (plan: seq<Writer>, items: seq<Item>)
    requires HeapOk(h) && WriterOk(h, w)
    ensures Planned(h, true, plan, items) && plan[0] == w
    ensures (items, plan[|items|].seen) == Walk(h, w)
    decreases |h.Keys - Elems(w.seen)|, |w.work|
  {
    if w.work == [] {
      plan, items := [w], [];
    } else {
      WriteStepOk(h, w);
      StepItemOk(h, w);
      StepSmaller(h, w);
      var (t, w') := WriteStep(h, w);
      plan, items := PlanShared(h, w');
      PlanExtended(h, true, w, t, plan, items);
      plan, items := [w] + plan, [t] + items;
    }
  }

  /** Without sharing it is the traversal of the unfolding. */
  lemma {:induction false} PlanPlain(h: Heap, rank: map<Addr, nat>, w: Writer)
    returns (plan: seq<Writer>, items: seq<Item>)
    requires HeapOk(h) && WriterOk(h, w) && Acyclic(h, rank)
    ensures Planned(h, false, plan, items) && plan[0] == w && plan[|items|].seen == w.seen
    ensures items == ForestItems(Trees(h, rank, w.work))
    decreases ForestWeight(Trees(h, rank, w.work))
  {
    if w.work == [] {
      plan, items := [w], [];
    } else {
      AdvanceOk(h, false, w);
      var (t, w') := Advance(h, false, w);
      assert w'.seen == w.seen;
      PlainHead(h, rank, w);
      PlainTrees(h, rank, w);
      ForestHead(Trees(h, rank, w.work));
      plan, items := PlanPlain(h, rank, w');
      PlanExtended(h, false, w, t, plan, items);
      plan, items := [w] + plan, [t] + items;
    }
  }

  lemma PlanExtended(h: Heap, sharing: bool, w: Writer, t: Item, plan: seq<Writer>, items: seq<Item>)
    requires Planned(h, sharing, plan, items) && WriterOk(h, w) && w.work != [] && ItemOk(t)
    requires Advance(h, sharing, w) == (t, plan[0])
    ensures Planned(h, sharing, [w] + plan, [t] + items)
    ensures ([w] + plan)[|items| + 1] == plan[|items|]
  {
    forall i: nat | i < |items| + 1 ensures Turn(h, sharing, [w] + plan, [t] + items, i) {
      if i > 0 {
        assert Turn(h, sharing, plan, items, i - 1);
      }
    }
  }

  /** The plan for a whole value. */
  lemma PlanValue(h: Heap, rank: map<Addr, nat>, sharing: bool, v: Val)
    returns (plan: seq<Writer>, items: seq<Item>)
    requires HeapOk(h) && ValOk(h, v) && (sharing || Acyclic(h, rank))
    ensures Planned(h, sharing, plan, items) && plan[0] == Writer([v], [])
    ensures sharing ==> (items, plan[|items|].seen) == Walk(h, Writer([v], []))
    ensures !sharing ==> items == TreeItems(Unfold(h, rank, v)) && plan[|items|].seen == []
  {
    if sharing {
      plan, items := PlanShared(h, Writer([v], []));
    } else {
      plan, items := PlanPlain(h, rank, Writer([v], []));
      assert Trees(h, rank, [v]) == [Unfold(h, rank, v)];
      SingleTree(Unfold(h, rank, v));
    }
  }

  lemma PlanNext(h: Heap, sharing: bool, plan: seq<Writer>, items: seq<Item>, n: nat, w: Writer)
    requires Planned(h, sharing, plan, items) && n < |plan| && plan[n] == w && w.work != []
    ensures n < |items| && WriterOk(h, w) && ItemOk(items[n]) && |w.seen| <= |h|
    ensures Advance(h, sharing, w) == (items[n], plan[n + 1]) && items[..n] + [items[n]] == items[..n + 1]
  {
    assert Turn(h, sharing, plan, items, n);
    SeenBound(h, w.seen);
  }

  lemma PlanEnd(h: Heap, sharing: bool, plan: seq<Writer>, items: seq<Item>, n: nat)
    requires Planned(h, sharing, plan, items) && n < |plan| && plan[n].work == []
    ensures n == |items| && items[..n] == items
  {
    assert n < |items| ==> Turn(h, sharing, plan, items, n);
  }

  /** More is pending at some turn than the stack can have entries for. */
  ghost predicate Deep(plan: seq<Writer>) {
    exists n: nat :: n < |plan| && |plan[n].work| > STACK_ENTRIES
  }

  /** So it is when `v` is written; its plan is determined by the first writer. */
  ghost predicate TooDeep(h: Heap, sharing: bool, v: Val) {
    exists plan, items :: Planned(h, sharing, plan, items) && plan[0] == Writer([v], []) && Deep(plan)
  }

  lemma Overflows(plan: seq<Writer>, n: nat, fields: seq<Val>, stack: seq<seq<Val>>)
    requires n < |plan| && plan[n].work == fields + Flat(stack) && |fields| > 1
    requires RunsOk(stack) && |stack| + 1 >= STACK_ENTRIES
    ensures Deep(plan)
  {
    FlatLength(stack);
    assert |plan[n].work| > STACK_ENTRIES;
  }

  /** Into a block just written: its first field comes next, and the others are pushed
      if there are any and the stack has room. */
  method EnterFields(fields: seq<Val>, pending: seq<seq<Val>>, capacity: nat)
    returns (ok: bool, cur: Val, stack: seq<seq<Val>>, limit: nat)
    requires fields != [] && RunsOk(pending) && LimitOk(capacity)
    ensures ok ==> RunsOk(stack) && LimitOk(limit) && [cur] + Flat(stack) == fields + Flat(pending)
    ensures !ok ==> |fields| > 1 && |pending| + 1 >= STACK_ENTRIES
  {
    ok, cur, stack, limit := true, fields[0], pending, capacity;
    if |fields| > 1 {
      var room := Room(|pending|, capacity);
      RoomOk(|pending|, capacity);
      if room == None {
        return false, cur, stack, limit;
      }
      limit := room.value;
    }
    EnterRun(fields, pending);
    stack := Push(fields[1..], pending);
  }

  class Extern {
    const sharing: bool          // the flag NO_SHARING is off
    const compat32: bool         // the flag COMPAT_32 is on
    const table: PositionTable.Table
    var out: seq<byte>
    var objCounter: nat
    var size32: nat
    var size64: nat
    ghost var done: seq<Item>
    ghost var chunks: seq<seq<byte>>
    ghost var seen: seq<Addr>

    ghost predicate OutputOk()
      reads this`done, this`chunks, this`out, this`size32, this`size64
    {
      && ItemsOk(done) && Chunked(chunks, done) && out == Concat(chunks)
      && size32 == Words32(done) && size64 == Words64(done)
    }

    ghost predicate TableOk()
      reads this`seen, this`objCounter, table
    {
      && (sharing ==> table.Valid() && table.contents == Positions(seen) && |table.contents| == |seen|)
      && objCounter == |seen| && (!sharing ==> seen == [])
    }

    /** init_extern_state and the start of extern_value */
    constructor (sharing: bool, compat32: bool)
      ensures this.sharing == sharing && this.compat32 == compat32 && OutputOk() && TableOk() && fresh(table)
      ensures out == [] && done == [] && seen == []
    {
      this.sharing, this.compat32 := sharing, compat32;
      table := new PositionTable.Table();
      out, objCounter, size32, size64, done, chunks, seen := [], 0, 0, 0, [], [], [];
    }

    /** Appends an item to the output. */
    method Emit(t: Item)
      requires ItemOk(t) && OutputOk()
      modifies this`out, this`done, this`chunks, this`size32, this`size64
      ensures OutputOk() && done == old(done) + [t]
    {
      ChunkedAppend(chunks, done, t);
      WordsAppend(done, t);
      out := out + WriteItem(t);
      done, chunks := done + [t], chunks + [WriteItem(t)];
      CountWords(t);
    }

    /** Adds what the object of an item takes on either architecture. */
    method CountWords(t: Item)
      modifies this`size32, this`size64
      ensures size32 == old(size32) + ItemWords32(t) && size64 == old(size64) + ItemWords(t)
    {
      if t.StringItem? {
        size32, size64 := size32 + 1 + (|t.bytes| + 4) / 4, size64 + 1 + (|t.bytes| + 8) / 8;
      } else if t.DoubleItem? {
        size32, size64 := size32 + 1 + 2, size64 + 1 + 1;
      } else if t.DoubleArrayItem? {
        size32, size64 := size32 + 1 + |t.ds| * 2, size64 + 1 + |t.ds|;
      } else if t.BlockItem? && t.size > 0 {
        size32, size64 := size32 + 1 + t.size, size64 + 1 + t.size;
      }
    }

    /** extern_record_location, after a look-up that found nothing. */
    method RecordLocation(a: Addr, slot: nat) returns (ok: bool)
      requires TableOk() && a !in seen
      requires sharing ==> PositionTable.FreeFor(table.present, table.entries, table.shift, a, slot)
      modifies this`objCounter, this`seen, table
      ensures ok ==> TableOk() && seen == if sharing then old(seen) + [a] else old(seen)
      ensures !ok ==> |old(seen)| + 1 >= PositionTable.MAX_OBJECTS
    {
      ok := true;
      if sharing {
        PositionsAppend(seen, a);
        ok := table.Record(a, objCounter, slot);
        objCounter, seen := objCounter + 1, seen + [a];
      }
    }

    /** What to write for a value, and whether it is an object not written before. */
    method Classify(h: Heap, v: Val, ghost rest: seq<Val>) returns (t: Item, unseen: bool, slot: nat)
      requires HeapOk(h) && WriterOk(h, Writer([v] + rest, seen)) && TableOk()
      ensures t == Advance(h, sharing, Writer([v] + rest, seen)).0
      ensures unseen <==> v.Ptr? && v.a !in seen
      ensures unseen && sharing ==> PositionTable.FreeFor(table.present, table.entries, table.shift, v.a, slot)
    {
      assert ([v] + rest)[0] == v && ValOk(h, v);
      slot, unseen := 0, v.Ptr?;
      if v.Long? {
        t := IntItem(v.n);
      } else if v.Atom? {
        t := BlockItem(v.tag, 0);
      } else {
        t := ItemOf(h[v.a]);
        if sharing {
          var found, pos, h0 := table.Lookup(v.a);
          slot, unseen := h0, !found;
          if found {
            t := SharedItem(objCounter - pos);
          }
        }
      }
    }

    /** The body of the loop up to `next_item`, the output apart: what to write for a
        value, and the entry in the table. `down` when it was a block not written before,
        whose fields come next. */
    method Visit(h: Heap, v: Val, ghost rest: seq<Val>) returns (outcome: Outcome, down: bool, t: Item)
      requires HeapOk(h) && WriterOk(h, Writer([v] + rest, seen)) && TableOk()
      modifies this`objCounter, this`seen, table
      ensures down ==> v.Ptr? && v.a in h && h[v.a].Block?
      ensures outcome == Done ==> TableOk() && (compat32 ==> Fits32(t))
      ensures outcome == Done ==> Advance(h, sharing, Writer([v] + rest, old(seen))) ==
                                  (t, Writer((if down then h[v.a].fields else []) + rest, seen))
      ensures outcome == OutOfMemory ==> |old(seen)| + 1 >= PositionTable.MAX_OBJECTS
      ensures outcome == Incompatible ==> compat32 && !Fits32(Advance(h, sharing, Writer([v] + rest, old(seen))).0)
      ensures outcome != StackOverflow
    {
      assert ([v] + rest)[0] == v && ValOk(h, v);
      AdvanceCases(h, sharing, v, rest, seen);
      outcome, down := Done, false;
      var unseen, slot;
      t, unseen, slot := Classify(h, v, rest);
      if compat32 && !Fits32(t) {
        return Incompatible, false, t;
      }
      if unseen {
        down := h[v.a].Block?;
        var ok := RecordLocation(v.a, slot);
        if !ok {
          outcome := OutOfMemory;
        }
      }
    }

    /** One value written: the table and the output. */
    method WriteValue(h: Heap, v: Val, ghost rest: seq<Val>) returns (outcome: Outcome, down: bool)
      requires HeapOk(h) && WriterOk(h, Writer([v] + rest, seen)) && TableOk() && OutputOk()
      requires ItemOk(Advance(h, sharing, Writer([v] + rest, seen)).0)
      modifies this, table
      ensures OutputOk() && (outcome == Done ==> TableOk())
      ensures outcome == Done && down ==> v.Ptr? && v.a in h && h[v.a].Block?
      ensures outcome == Done ==> var (t, w') := Advance(h, sharing, Writer([v] + rest, old(seen)));
        && done == old(done) + [t] && w' == Writer((if down then h[v.a].fields else []) + rest, seen)
        && (compat32 ==> Fits32(t))
      ensures outcome == OutOfMemory ==> |old(seen)| + 1 >= PositionTable.MAX_OBJECTS
      ensures outcome == Incompatible ==> compat32 && !Fits32(Advance(h, sharing, Writer([v] + rest, old(seen))).0)
      ensures outcome != StackOverflow
    {
      var t;
      outcome, down, t := Visit(h, v, rest);
      if outcome == Done {
        Emit(t);
      }
    }

    /** Turn `n` of the plan. */
    method WritePlanned(h: Heap, v: Val, ghost rest: seq<Val>, ghost plan: seq<Writer>, ghost items: seq<Item>,
                        ghost n: nat)
      returns (outcome: Outcome, down: bool)
      requires HeapOk(h) && Planned(h, sharing, plan, items) && OutputOk() && TableOk()
      requires n < |plan| && plan[n] == Writer([v] + rest, seen) && done == items[..n] && (compat32 ==> AllFit32(done))
      modifies this, table
      ensures OutputOk() && (outcome == Done ==> TableOk())
      ensures outcome == Done && down ==> v.Ptr? && v.a in h && h[v.a].Block?
      ensures outcome == Done ==> n < |items| && done == items[..n + 1] && (compat32 ==> AllFit32(done))
      ensures outcome == Done ==> plan[n + 1] == Writer((if down then h[v.a].fields else []) + rest, seen)
      ensures outcome == OutOfMemory ==> |h| + 1 >= PositionTable.MAX_OBJECTS
      ensures outcome == Incompatible ==> compat32 && !AllFit32(items)
      ensures outcome != StackOverflow
    {
      PlanNext(h, sharing, plan, items, n, Writer([v] + rest, seen));
      outcome, down := WriteValue(h, v, rest);
    }

    /** The loop of extern_rec: it follows the plan. */
    method Run(h: Heap, v: Val, ghost plan: seq<Writer>, ghost items: seq<Item>)
      returns (outcome: Outcome)
      requires HeapOk(h) && Planned(h, sharing, plan, items) && plan[0] == Writer([v], [])
      requires OutputOk() && TableOk() && done == [] && seen == []
      modifies this, table
      ensures OutputOk()
      ensures outcome == Done ==> TableOk() && done == items && seen == plan[|items|].seen
      ensures outcome == Done && compat32 ==> AllFit32(items)
      ensures outcome == Incompatible ==> compat32 && !AllFit32(items)
      ensures outcome == OutOfMemory ==> |h| + 1 >= PositionTable.MAX_OBJECTS
      ensures outcome == StackOverflow ==> Deep(plan)
    {
      var cur, stack: seq<seq<Val>>, limit: nat := v, [], STACK_INIT_SIZE;
      ghost var rest, n: nat := [], 0;
      assert Limit(limit, 0);
      assert [v] + rest == [v];
      while true
        invariant RunsOk(stack) && rest == Flat(stack) && LimitOk(limit)
        invariant OutputOk() && TableOk()
        invariant n < |plan| && plan[n] == Writer([cur] + rest, seen) && done == items[..n]
        invariant compat32 ==> AllFit32(done)
        decreases |plan| - n
      {
        var down;
        outcome, down := WritePlanned(h, cur, rest, plan, items, n);
        if outcome != Done {
          return;
        }
        n := n + 1;
        if down {
          assert ObjOk(h, h[cur.a]);
          ghost var fields, pending := h[cur.a].fields, stack;
          var entered;
          entered, cur, stack, limit := EnterFields(h[cur.a].fields, stack, limit);
          if !entered {
            Overflows(plan, n, fields, pending);
            return StackOverflow;
          }
        } else {
          assert [] + rest == rest;
          if stack == [] {
            break;
          }
          PopFlat(stack);
          cur, stack := stack[0][0], Pop(stack);
        }
        rest := Flat(stack);
      }
      PlanEnd(h, sharing, plan, items, n);
      outcome := Done;
    }

    /** extern_rec. On success the output holds the items of the traversal (or, without
        sharing, of the unfolding), and the counters what they add up to. It fails only
        when there are too many objects for the table or too much is pending for the stack. */
    method ExternRec(h: Heap, v: Val, ghost rank: map<Addr, nat>) returns (outcome: Outcome)
      requires HeapOk(h) && ValOk(h, v) && (sharing || Acyclic(h, rank))
      requires OutputOk() && TableOk() && done == [] && seen == []
      modifies this, table
      ensures OutputOk() && out == WriteItems(done)
      ensures outcome == Done ==> TableOk()
      ensures outcome == Done && compat32 ==> AllFit32(done)
      ensures outcome == Incompatible ==> compat32
      ensures outcome == Incompatible ==>
        !AllFit32(if sharing then Walk(h, Writer([v], [])).0 else TreeItems(Unfold(h, rank, v)))
      ensures outcome == Done && sharing ==> (done, seen) == Walk(h, Writer([v], []))
      ensures outcome == Done && !sharing ==> done == TreeItems(Unfold(h, rank, v)) && seen == []
      ensures outcome == OutOfMemory ==> |h| + 1 >= PositionTable.MAX_OBJECTS
      ensures outcome == StackOverflow ==> TooDeep(h, sharing, v)
    {
      ghost var plan, items := PlanValue(h, rank, sharing, v);
      outcome := Run(h, v, plan, items);
      ChunkedStream(chunks, done);
    }
  }
}
