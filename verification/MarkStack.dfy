/**
  The mark stack of `runtime/major_gc.c`: spans of fields still to be scanned, and,
  when it may not grow, the same fields compressed into a map from chunks of 64 words
  to bit sets. Compressing keeps exactly the fields that are pending.
 */
module MarkStack {

  import opened AddrMap

  const BITS_PER_WORD: nat := 64
  const INIT_STACK_SIZE: nat := 4096
  const ENTRY_SIZE: nat := 16         // bytes of a mark_entry

  /** Field addresses, counted in words, from `start` up to `end`. */
  datatype Span = Span(start: nat, end: nat)

  /** No block lives in the first chunk, whose number stands for a free slot. */
  predicate SpanOk(s: Span) {
    BITS_PER_WORD <= s.start <= s.end
  }

  predicate InSpan(s: Span, a: nat) {
    s.start <= a < s.end
  }

  ghost function Fields(s: Span): set<nat> {
    set a: nat | s.start <= a < s.end && InSpan(s, a)
  }

  function Length(s: Span): nat {
    if s.start < s.end then s.end - s.start else 0
  }

  // --------------------------------------------------------- chunks and bit sets

  function Chunk(a: nat): nat {
    a - a % BITS_PER_WORD
  }

  function Offset(a: nat): nat {
    a % BITS_PER_WORD
  }

  lemma ChunkParts(k: nat, o: nat)
    requires k % BITS_PER_WORD == 0 && o < BITS_PER_WORD
    ensures Chunk(k + o) == k && Offset(k + o) == o
  {
  }

  ghost predicate InMap(contents: map<nat, Bits>, a: nat) {
    Chunk(a) in contents && Offset(a) in contents[Chunk(a)]
  }

  ghost predicate ChunkOk(k: nat, bits: Bits) {
    k % BITS_PER_WORD == 0 && k > 0 && bits != {} && forall o :: o in bits ==> o < BITS_PER_WORD
  }

  ghost predicate ChunksOk(contents: map<nat, Bits>) {
    forall k :: k in contents ==> ChunkOk(k, contents[k])
  }

  /** The bits in the slots of a table from number `i` on. */
  ghost predicate InSlots(table: seq<Slot>, i: nat, a: nat) {
    exists p :: i <= p < |table| && InSlot(table[p], a)
  }

  ghost predicate InSlot(s: Slot, a: nat) {
    s.key != INVALID_KEY && s.key == Chunk(a) && Offset(a) in s.bits
  }

  ghost predicate InStack(stack: seq<Span>, a: nat) {
    exists i :: 0 <= i < |stack| && InSpan(stack[i], a)
  }

  /** A table holds what its contents say. */
  lemma SlotsAreContents(table: seq<Slot>, contents: map<nat, Bits>, a: nat)
    requires Holds(table, contents)
    ensures InSlots(table, 0, a) <==> InMap(contents, a)
  {
    if InMap(contents, a) {
      assert HasKey(table, Chunk(a));
      var p :| 0 <= p < |table| && table[p].key == Chunk(a);
      assert InSlot(table[p], a);
    }
  }

  lemma SlotsStep(table: seq<Slot>, i: nat, a: nat)
    requires i < |table|
    ensures InSlots(table, i, a) <==> InSlot(table[i], a) || InSlots(table, i + 1, a)
  {
    if InSlots(table, i, a) && !InSlot(table[i], a) {
      var p :| i <= p < |table| && InSlot(table[p], a);
      assert i + 1 <= p;
    }
  }

  lemma StackAppend(stack: seq<Span>, s: Span, a: nat)
    ensures InStack(stack + [s], a) <==> InStack(stack, a) || InSpan(s, a)
  {
    var stack' := stack + [s];
    if InStack(stack, a) {
      var i :| 0 <= i < |stack| && InSpan(stack[i], a);
      assert InSpan(stack'[i], a);
    }
    if InSpan(s, a) {
      assert InSpan(stack'[|stack|], a);
    }
  }

  lemma StackPrefix(stack: seq<Span>, i: nat, a: nat)
    requires i < |stack|
    ensures InStack(stack[..i + 1], a) <==> InStack(stack[..i], a) || InSpan(stack[i], a)
  {
    assert stack[..i + 1] == stack[..i] + [stack[i]];
    StackAppend(stack[..i], stack[i], a);
  }

  /** caml_addrmap_next and caml_addrmap_iterator: the first slot in use from `i` on. */
  method NextTaken(table: seq<Slot>, i: nat) returns (j: nat)
    requires i <= |table|
    ensures i <= j <= |table| && (j < |table| ==> table[j].key != INVALID_KEY)
    ensures forall a :: InSlots(table, j, a) <==> InSlots(table, i, a)
  {
    j := i;
    while j < |table| && table[j].key == INVALID_KEY
      invariant i <= j <= |table|
      invariant forall a :: InSlots(table, j, a) <==> InSlots(table, i, a)
    {
      forall a ensures InSlots(table, j + 1, a) <==> InSlots(table, j, a) {
        SlotsStep(table, j, a);
      }
      j := j + 1;
    }
  }

  /** add_addr */
  method AddAddr(m: Map, a: nat) returns (ok: bool)
    requires m.Valid() && ChunksOk(m.contents) && BITS_PER_WORD <= a
    modifies m
    ensures ok ==> m.Valid() && ChunksOk(m.contents)
    ensures ok ==> forall b :: InMap(m.contents, b) <==> b == a || InMap(old(m.contents), b)
    ensures !ok ==> m.Full()
  {
    ghost var before := m.contents;
    var p;
    ok, p := m.InsertPos(Chunk(a));
    if ok {
      var bits := m.table[p].bits;
      assert m.contents[Chunk(a)] == bits;
      m.Store(p, bits + {Offset(a)});
      AddedBit(before, a);
    }
  }

  lemma AddedBit(contents: map<nat, Bits>, a: nat)
    requires ChunksOk(contents) && BITS_PER_WORD <= a
    ensures var bits := if Chunk(a) in contents then contents[Chunk(a)] else {};
      var contents' := contents[Chunk(a) := bits + {Offset(a)}];
      ChunksOk(contents') && forall b :: InMap(contents', b) <==> b == a || InMap(contents, b)
  {
    assert ChunkOk(Chunk(a), {Offset(a)}) by {
      assert Chunk(a) == BITS_PER_WORD * (a / BITS_PER_WORD);
    }
    var bits := if Chunk(a) in contents then contents[Chunk(a)] else {};
    var contents' := contents[Chunk(a) := bits + {Offset(a)}];
    assert bits == {} || ChunkOk(Chunk(a), bits);
    assert ChunkOk(Chunk(a), bits + {Offset(a)});
    forall b ensures InMap(contents', b) <==> b == a || InMap(contents, b) {
      assert Chunk(b) == Chunk(a) && Offset(b) == Offset(a) ==> b == a;
    }
  }

  lemma BetweenAll(table: seq<Slot>, contents: map<nat, Bits>, done: map<nat, Bits>, lo: nat, a: nat)
    requires Holds(table, contents) && Between(table, contents, done, lo, |table|)
    ensures InMap(done, a) <==> InSlots(table, lo, a)
  {
    if InMap(done, a) {
      assert HasKey(table, Chunk(a));
      var p :| 0 <= p < |table| && table[p].key == Chunk(a);
      assert InSlot(table[p], a);
    }
  }

  /** The first loop of mark_stack_prune: the entries not processed yet, in a new map. */
  method CopyRest(table: seq<Slot>, ghost contents: map<nat, Bits>, iter: nat) returns (ok: bool, m: Map)
    requires Holds(table, contents) && ChunksOk(contents) && iter <= |table|
    ensures fresh(m)
    ensures ok ==> m.Valid() && ChunksOk(m.contents)
    ensures ok ==> forall a :: InMap(m.contents, a) <==> InSlots(table, iter, a)
    ensures !ok ==> m.Full() && iter < |table|
  {
    m := new Map();
    var it := iter;
    while it < |table|
      invariant iter <= it <= |table| && m.Valid() && Between(table, contents, m.contents, iter, it)
    {
      if table[it].key != INVALID_KEY {
        BetweenNext(table, contents, m.contents, iter, it);
        var inserted := m.Insert(table[it].key, table[it].bits);
        if !inserted {
          return false, m;
        }
      }
      it := it + 1;
    }
    forall a ensures InMap(m.contents, a) <==> InSlots(table, iter, a) {
      BetweenAll(table, contents, m.contents, iter, a);
    }
    ok := true;
  }

  /** The addresses of a short span, one by one. */
  method AddSpan(m: Map, s: Span) returns (ok: bool)
    requires m.Valid() && ChunksOk(m.contents) && SpanOk(s)
    modifies m
    ensures ok ==> m.Valid() && ChunksOk(m.contents)
    ensures ok ==> forall b :: InMap(m.contents, b) <==> InSpan(s, b) || InMap(old(m.contents), b)
    ensures !ok ==> m.Full()
  {
    var start := s.start;
    while start < s.end
      invariant s.start <= start && (start <= s.end || start == s.start)
      invariant m.Valid() && ChunksOk(m.contents)
      invariant forall b: nat :: InMap(m.contents, b) <==> s.start <= b < start || InMap(old(m.contents), b)
    {
      var added := AddAddr(m, start);
      if !added {
        return false;
      }
      start := start + 1;
    }
    ok := true;
  }

  predicate Large(s: Span) {
    Length(s) > BITS_PER_WORD
  }

  function LargeOnes(spans: seq<Span>): seq<Span> {
    if spans == [] then []
    else if Large(spans[|spans| - 1]) then LargeOnes(spans[..|spans| - 1]) + [spans[|spans| - 1]]
    else LargeOnes(spans[..|spans| - 1])
  }

  lemma LargeStep(spans: seq<Span>, i: nat)
    requires i < |spans|
    ensures LargeOnes(spans[..i + 1]) ==
            if Large(spans[i]) then LargeOnes(spans[..i]) + [spans[i]] else LargeOnes(spans[..i])
  {
    assert spans[..i + 1][..i] == spans[..i];
  }

  lemma {:induction false} LargeSubset(spans: seq<Span>)
    ensures |LargeOnes(spans)| <= |spans|
    ensures forall i :: 0 <= i < |LargeOnes(spans)| ==> LargeOnes(spans)[i] in spans && Large(LargeOnes(spans)[i])
    ensures Weight(LargeOnes(spans)) <= Weight(spans)
    decreases |spans|
  {
    if spans != [] {
      LargeSubset(spans[..|spans| - 1]);
      WeightAppend(LargeOnes(spans[..|spans| - 1]), spans[|spans| - 1]);
    }
  }

  lemma {:induction false} LargeAll(spans: seq<Span>)
    requires |LargeOnes(spans)| == |spans|
    ensures LargeOnes(spans) == spans
    decreases |spans|
  {
    if spans != [] {
      LargeSubset(spans[..|spans| - 1]);
      LargeAll(spans[..|spans| - 1]);
    }
  }

  /** The words to scan, and one for each entry. */
  ghost function Weight(spans: seq<Span>): nat {
    if spans == [] then 0 else Weight(spans[..|spans| - 1]) + Length(spans[|spans| - 1]) + 1
  }

  lemma WeightAppend(spans: seq<Span>, s: Span)
    ensures Weight(spans + [s]) == Weight(spans) + Length(s) + 1
  {
    assert (spans + [s])[..|spans|] == spans;
  }

  /** The second loop: large spans move to the front, the others into the map. */
  method Compress(spans: seq<Span>, m: Map) returns (ok: bool, stack: seq<Span>)
    requires m.Valid() && ChunksOk(m.contents) && forall i :: 0 <= i < |spans| ==> SpanOk(spans[i])
    modifies m
    ensures ok ==> m.Valid() && ChunksOk(m.contents) && stack == LargeOnes(spans)
    ensures ok ==> forall a :: InStack(stack, a) || InMap(m.contents, a) <==>
                               InStack(spans, a) || InMap(old(m.contents), a)
    ensures !ok ==> m.Full() && LargeOnes(spans) != spans
  {
    stack := spans;
    var i, newCount := 0, 0;
    while i < |spans|
      invariant newCount <= i <= |spans| == |stack| && stack[i..] == spans[i..]
      invariant m.Valid() && ChunksOk(m.contents) && stack[..newCount] == LargeOnes(spans[..i])
      invariant forall a :: InStack(stack[..newCount], a) || InMap(m.contents, a) <==>
                            InStack(spans[..i], a) || InMap(old(m.contents), a)
    {
      var me := stack[i];
      assert me == spans[i];
      LargeStep(spans, i);
      forall a ensures InStack(spans[..i + 1], a) <==> InStack(spans[..i], a) || InSpan(me, a) {
        StackPrefix(spans, i, a);
      }
      if Large(me) {
        forall a ensures InStack(stack[..newCount] + [me], a) <==> InStack(stack[..newCount], a) || InSpan(me, a) {
          StackAppend(stack[..newCount], me, a);
        }
        stack := stack[newCount := me];
        assert stack[..newCount + 1] == stack[..newCount] + [me];
        newCount := newCount + 1;
      } else {
        var added := AddSpan(m, me);
        if !added {
          LargeSubset(spans);
          return false, [];
        }
      }
      i := i + 1;
    }
    assert spans[..i] == spans;
    ok, stack := true, stack[..newCount];
  }

  /** The size to grow to: large entries, which do not compress, are not doubled. */
  function TargetSize(size: nat, large: nat): (r: nat)
    requires large <= size
    ensures r == 2 * size - large
  {
    ((size * ENTRY_SIZE - large * ENTRY_SIZE) * 2 + large * ENTRY_SIZE) / ENTRY_SIZE
  }

  /** The fields still to be scanned: those of the spans, and the bits of the map from
      the iterator on. */
  ghost predicate PendingIs(spans: seq<Span>, table: seq<Slot>, iter: nat, pending: set<nat>) {
    forall a {:trigger InStack(spans, a)} {:trigger InSlots(table, iter, a)} ::
      a in pending <==> InStack(spans, a) || InSlots(table, iter, a)
  }

  /** The pending fields that the spans `rest` and the map still give. */
  ghost function Remaining(rest: seq<Span>, table: seq<Slot>, iter: nat, pending: set<nat>): set<nat> {
    set a | a in pending && (InStack(rest, a) || InSlots(table, iter, a))
  }

  lemma RemainingIs(rest: seq<Span>, s: Span, table: seq<Slot>, iter: nat, pending: set<nat>)
    requires PendingIs(rest + [s], table, iter, pending)
    ensures PendingIs(rest, table, iter, Remaining(rest, table, iter, pending))
    ensures pending == Remaining(rest, table, iter, pending) + Fields(s)
  {
    forall a: nat ensures a in pending <==> InStack(rest, a) || InSpan(s, a) || InSlots(table, iter, a) {
      StackAppend(rest, s, a);
      assert InStack(rest + [s], a) || !InStack(rest + [s], a);
    }
  }

  lemma PrunedPending(spans: seq<Span>, table: seq<Slot>, iter: nat, pending: set<nat>,
                      stack: seq<Span>, m: seq<Slot>, contents: map<nat, Bits>, first: nat)
    requires PendingIs(spans, table, iter, pending) && Holds(m, contents)
    requires forall a :: InStack(stack, a) || InMap(contents, a) <==> InStack(spans, a) || InSlots(table, iter, a)
    requires forall a :: InSlots(m, first, a) <==> InSlots(m, 0, a)
    ensures PendingIs(stack, m, first, pending)
  {
    forall a: nat ensures a in pending <==> InStack(stack, a) || InSlots(m, first, a) {
      SlotsAreContents(m, contents, a);
      assert InStack(spans, a) || !InStack(spans, a);
    }
  }

  /** What mark_stack_prune makes of the spans and the map: only large spans are left, the
      rest is in a new map, and the same fields are pending. */
  method PruneInto(spans: seq<Span>, table: seq<Slot>, ghost contents: map<nat, Bits>, iter: nat,
                   ghost pending: set<nat>)
    returns (ok: bool, m: Map, stack: seq<Span>, first: nat)
    requires Holds(table, contents) && ChunksOk(contents) && iter <= |table|
    requires forall i :: 0 <= i < |spans| ==> SpanOk(spans[i])
    requires PendingIs(spans, table, iter, pending)
    ensures fresh(m)
    ensures ok ==> m.Valid() && ChunksOk(m.contents) && stack == LargeOnes(spans)
    ensures ok ==> first <= |m.table| && (first < |m.table| ==> m.table[first].key != INVALID_KEY)
    ensures ok ==> PendingIs(stack, m.table, first, pending)
    ensures !ok ==> m.Full()
    ensures iter == |table| && LargeOnes(spans) == spans ==> ok
  {
    stack, first := spans, 0;
    ok, m := CopyRest(table, contents, iter);
    if !ok {
      return;
    }
    ok, stack := Compress(spans, m);
    if !ok {
      return;
    }
    first := NextTaken(m.table, 0);
    if m.table == [] {
      assert Holds([], map[]);
    }
    PrunedPending(spans, table, iter, pending, stack, m.table, m.contents, first);
  }

  class Stack {
    var spans: seq<Span>        // the entries in use, the top one last
    var size: nat               // room for entries
    var compressed: Map
    var iter: nat               // the first slot of the map not processed yet
    ghost var pending: set<nat>

    ghost predicate Valid()
      reads this, compressed
    {
      && compressed.Valid() && ChunksOk(compressed.contents) && iter <= |compressed.table|
      && 0 < size && |spans| <= size
      && (iter < |compressed.table| ==> compressed.table[iter].key != INVALID_KEY)
      && (forall i :: 0 <= i < |spans| ==> SpanOk(spans[i]))
      && PendingIs(spans, compressed.table, iter, pending)
    }

    /** No entry can be pushed: the map of the compressed ones cannot grow, or the stack
        is full of entries that do not compress and cannot be doubled. */
    ghost predicate Exhausted(heapBsize: nat, canGrow: bool)
      reads this, compressed
    {
      || compressed.Full()
      || (|spans| == size == |LargeOnes(spans)| && !(size * ENTRY_SIZE < heapBsize / 32 && canGrow))
    }

    constructor ()
      ensures Valid() && fresh(compressed) && spans == [] && pending == {}
      ensures size == INIT_STACK_SIZE && compressed.table == [] && iter == 0
    {
      spans, size, iter, pending := [], INIT_STACK_SIZE, 0, {};
      compressed := new Map();
    }

    /** mark_stack_prune: only large spans are left on the stack, and exactly the same
        fields are pending. */
    method Prune() returns (ok: bool)
      requires Valid()
      modifies this, compressed
      ensures ok ==> Valid() && fresh(compressed) && spans == LargeOnes(old(spans)) && size == old(size)
      ensures ok ==> pending == old(pending)
      ensures !ok ==> compressed.Full()
      ensures old(iter) == |old(compressed.table)| && LargeOnes(old(spans)) == old(spans) ==> ok
    {
      if compressed.table == [] {
        assert Holds([], map[]);
      }
      LargeSubset(spans);
      ok, compressed, spans, iter := PruneInto(spans, compressed.table, compressed.contents, iter, pending);
    }

    /** The loop of realloc_mark_stack that counts large entries. */
    method CountLarge() returns (n: nat)
      ensures n == |LargeOnes(spans)|
    {
      n := 0;
      var i := 0;
      while i < |spans|
        invariant i <= |spans| && n == |LargeOnes(spans[..i])|
      {
        LargeStep(spans, i);
        if Large(spans[i]) {
          n := n + 1;
        }
        i := i + 1;
      }
      assert spans[..i] == spans;
    }

    /** realloc_mark_stack, in a domain whose heap takes `heapBsize` bytes; `canGrow` is
        whether the allocator has room. A full stack gets room for one more entry exactly
        when one of its entries is not large, or its size is still small against the heap
        and it can be doubled. */
    method Realloc(heapBsize: nat, canGrow: bool) returns (ok: bool)
      requires Valid()
      modifies this, compressed
      ensures ok ==> Valid() && (compressed == old(compressed) || fresh(compressed))
      ensures ok ==> pending == old(pending) && Weight(spans) <= Weight(old(spans))
      ensures ok && |old(spans)| == old(size) ==>
        (|spans| < size <==>
          |LargeOnes(old(spans))| < |old(spans)| || (old(size) * ENTRY_SIZE < heapBsize / 32 && canGrow))
      ensures ok && |old(spans)| == old(size) && |spans| >= size ==> spans == old(spans) && size == old(size)
      ensures !ok ==> compressed.Full()
      ensures old(iter) == |old(compressed.table)| && LargeOnes(old(spans)) == old(spans) ==> ok
    {
      var large := 0;
      LargeSubset(spans);
      if |LargeOnes(spans)| == |spans| {
        LargeAll(spans);
      }
      if size * ENTRY_SIZE >= heapBsize / 32 {
        large := CountLarge();
      }
      if size * ENTRY_SIZE - large * ENTRY_SIZE < heapBsize / 32 && canGrow {
        size := TargetSize(size, large);
        return true;
      }
      ok := Prune();
    }

    /** mark_stack_push_range; false only when there is no room even after
        realloc_mark_stack. */
    method PushRange(s: Span, heapBsize: nat, canGrow: bool) returns (ok: bool)
      requires Valid() && SpanOk(s)
      modifies this, compressed
      ensures ok ==> Valid() && (compressed == old(compressed) || fresh(compressed))
      ensures ok ==> pending == old(pending) + Fields(s)
      ensures ok ==> Weight(spans) <= Weight(old(spans)) + Length(s) + 1
      ensures !ok ==> Exhausted(heapBsize, canGrow)
    {
      LargeSubset(spans);
      if |spans| == size {
        ok := Realloc(heapBsize, canGrow);
        if !ok {
          return;
        }
      }
      if |spans| >= size {
        return false;
      }
      forall a ensures InStack(spans + [s], a) <==> InStack(spans, a) || InSpan(s, a) {
        StackAppend(spans, s, a);
      }
      WeightAppend(spans, s);
      spans, pending := spans + [s], pending + Fields(s);
      ok := true;
    }

    /** stk->stack[--stk->count] */
    method Pop() returns (s: Span)
      requires Valid() && spans != []
      modifies this`spans, this`pending
      ensures Valid() && SpanOk(s) && spans == old(spans)[..|old(spans)| - 1] && s == old(spans)[|old(spans)| - 1]
      ensures old(pending) == pending + Fields(s)
      ensures Weight(old(spans)) == Weight(spans) + Length(s) + 1
    {
      var rest := spans[..|spans| - 1];
      s := spans[|spans| - 1];
      assert spans == rest + [s];
      RemainingIs(rest, s, compressed.table, iter, pending);
      spans, pending := rest, Remaining(rest, compressed.table, iter, pending);
    }

    /** The next chunk of the map to process, in mark: its fields stop pending. */
    method TakeChunk() returns (key: nat, bits: Bits)
      requires Valid() && spans == [] && iter < |compressed.table|
      modifies this`iter, this`pending
      ensures Valid() && pending + ChunkFields(key, bits) == old(pending) && pending < old(pending)
      ensures forall o :: o in bits ==> o < BITS_PER_WORD
    {
      var table, i := compressed.table, iter;
      key, bits := table[i].key, table[i].bits;
      assert ChunkOk(key, bits);
      iter := NextTaken(table, i + 1);
      forall a ensures a in pending <==> a in ChunkFields(key, bits) || InSlots(table, iter, a) {
        assert InStack(spans, a) || !InStack(spans, a);
        SlotsStep(table, i, a);
        ChunkMembers(table[i], a);
      }
      OtherChunks(table, compressed.contents, i, iter);
      pending := pending - ChunkFields(key, bits);
    }
  }

  /** Large spans, one after the other. */
  function LargeSpan(i: nat): Span {
    Span(BITS_PER_WORD + i * (BITS_PER_WORD + 1), BITS_PER_WORD + (i + 1) * (BITS_PER_WORD + 1))
  }

  lemma {:induction false} AllLarge(n: nat)
    ensures LargeOnes(seq(n, i requires 0 <= i => LargeSpan(i))) == seq(n, i requires 0 <= i => LargeSpan(i))
    decreases n
  {
    if n > 0 {
      AllLarge(n - 1);
      var spans := seq(n, i requires 0 <= i => LargeSpan(i));
      assert spans[..n - 1] == seq(n - 1, i requires 0 <= i => LargeSpan(i));
      assert Large(spans[n - 1]);
    }
  }

  /** A stack of its initial size, full of large spans, in a heap of no more than 32 times
      that size, is as full after realloc_mark_stack as before, although memory is there. */
  method ReallocCounterexample(heapBsize: nat) returns (stk: Stack, ok: bool)
    requires heapBsize / 32 <= INIT_STACK_SIZE * ENTRY_SIZE
    ensures ok && stk.Valid() && |stk.spans| == stk.size == INIT_STACK_SIZE
  {
    stk := new Stack();
    stk.spans := seq(INIT_STACK_SIZE, i requires 0 <= i => LargeSpan(i));
    stk.pending := set a: nat | a < LargeSpan(INIT_STACK_SIZE).start && InStack(stk.spans, a);
    forall a: nat | InStack(stk.spans, a) ensures a < LargeSpan(INIT_STACK_SIZE).start {
    }
    AllLarge(INIT_STACK_SIZE);
    assert stk.Valid();
    ok := stk.Realloc(heapBsize, true);
  }

  ghost function ChunkFields(key: nat, bits: Bits): set<nat> {
    set o | o in bits :: key + o
  }

  lemma ChunkMembers(s: Slot, a: nat)
    requires s.key != INVALID_KEY && ChunkOk(s.key, s.bits)
    ensures a in ChunkFields(s.key, s.bits) <==> InSlot(s, a)
  {
    if InSlot(s, a) {
      assert a == s.key + Offset(a);
    }
    if a in ChunkFields(s.key, s.bits) {
      var o :| o in s.bits && a == s.key + o;
      ChunkParts(s.key, o);
    }
  }

  /** No other slot has fields of the same chunk. */
  lemma OtherChunks(table: seq<Slot>, contents: map<nat, Bits>, i: nat, j: nat)
    requires Holds(table, contents) && ChunksOk(contents) && i < j && i < |table| && table[i].key != INVALID_KEY
    ensures forall a :: a in ChunkFields(table[i].key, table[i].bits) ==> !InSlots(table, j, a)
    ensures ChunkFields(table[i].key, table[i].bits) != {}
  {
    assert ChunkOk(table[i].key, table[i].bits);
    forall a | a in ChunkFields(table[i].key, table[i].bits) ensures !InSlots(table, j, a) {
      ChunkMembers(table[i], a);
    }
    var o :| o in table[i].bits;
    assert table[i].key + o in ChunkFields(table[i].key, table[i].bits);
  }
}
