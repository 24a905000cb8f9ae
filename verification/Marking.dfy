/**
  One marking call (`do_some_marking` and `mark` in `runtime/major_gc.c`) in one domain:
  the prefetch ring, the mark stack and the budget. It ends for every heap, stack and
  budget, and loses no field: what it has marked is scanned or still pending. It marks
  nothing that it cannot reach.
 */
module Marking {

  import opened Common
  import opened MarkStack
  import opened AddrMap

  // -------------------------------------------------------------------- the heap

  /** A word: a pointer to a block of the major heap, or anything else. */
  datatype Value = Other | Ptr(p: nat)

  /** What scanning a block means: from field `env` on (closures start with code), not
      at all, or the values on the stacks of a continuation. */
  datatype Kind = Scan(env: nat) | NoScan | Cont(roots: seq<Value>)

  datatype Block = Block(wosize: nat, kind: Kind)

  /** Words by address; blocks by the address of their first field; for a pointer into
      the middle of a closure (an infix header), the closure. */
  datatype Heap = Heap(mem: map<nat, Value>, blocks: map<nat, Block>, base: map<nat, nat>)

  function Load(h: Heap, a: nat): Value {
    if a in h.mem then h.mem[a] else Other
  }

  function Resolve(h: Heap, p: nat): nat {
    if p in h.base then h.base[p] else p
  }

  predicate ValueOk(h: Heap, v: Value) {
    v.Ptr? ==> Resolve(h, v.p) in h.blocks
  }

  predicate BlockOk(h: Heap, b: nat) {
    b in h.blocks ==>
      && BITS_PER_WORD <= b && (h.blocks[b].kind.Scan? ==> h.blocks[b].kind.env <= h.blocks[b].wosize)
      && (h.blocks[b].kind.Cont? ==>
            forall i :: 0 <= i < |h.blocks[b].kind.roots| ==> ValueOk(h, h.blocks[b].kind.roots[i]))
  }

  ghost predicate HeapOk(h: Heap) {
    && (forall a :: ValueOk(h, Load(h, a)))
    && (forall b :: b in h.blocks ==> BlockOk(h, b))
  }

  // ------------------------------------------------------------------ what is lost

  /** The blocks marked, the pointers in the ring and the fields pending. */
  datatype Greys = Greys(marked: set<nat>, ring: set<nat>, pending: set<nat>)

  ghost predicate Dark(h: Heap, marked: set<nat>, v: Value) {
    v.Ptr? ==> Resolve(h, v.p) in marked
  }

  /** A field that marking has not lost: it leads to a marked block, or it is still to be
      scanned, or what it held is still to be marked. */
  ghost predicate Covered(h: Heap, g: Greys, a: nat) {
    a in g.pending || Dark(h, g.marked, Load(h, a)) || (Load(h, a).Ptr? && Load(h, a).p in g.ring)
  }

  ghost predicate BlockCovered(h: Heap, g: Greys, b: nat) {
    b in h.blocks ==>
      match h.blocks[b].kind
      case Scan(env) => forall a :: b + env <= a < b + h.blocks[b].wosize ==> Covered(h, g, a)
      case NoScan => true
      case Cont(roots) => forall i :: 0 <= i < |roots| ==> Dark(h, g.marked, roots[i])
  }

  /** Nothing is unmarked, no field is lost, and the blocks newly marked are covered. */
  ghost predicate Progress(h: Heap, g: Greys, g': Greys) {
    && g.marked <= g'.marked
    && (forall a :: Covered(h, g, a) ==> Covered(h, g', a))
    && (forall b :: b in g'.marked && b !in g.marked ==> b in h.blocks && BlockCovered(h, g', b))
  }

  lemma CoveredKept(h: Heap, g: Greys, g': Greys, b: nat)
    requires g.marked <= g'.marked && (forall a :: Covered(h, g, a) ==> Covered(h, g', a)) && BlockCovered(h, g, b)
    ensures BlockCovered(h, g', b)
  {
  }

  lemma ProgressTrans(h: Heap, g1: Greys, g2: Greys, g3: Greys)
    requires Progress(h, g1, g2) && Progress(h, g2, g3)
    ensures Progress(h, g1, g3)
  {
    forall b | b in g3.marked && b !in g1.marked ensures b in h.blocks && BlockCovered(h, g3, b) {
      if b in g2.marked {
        CoveredKept(h, g2, g3, b);
      }
    }
  }

  lemma ProgressMore(h: Heap, g: Greys, g': Greys)
    requires g'.marked == g.marked && g.ring <= g'.ring && g.pending <= g'.pending
    ensures Progress(h, g, g')
  {
  }

  /** Marking a block and making its fields pending. */
  lemma ProgressMark(h: Heap, g: Greys, g': Greys, b: nat)
    requires g'.marked == g.marked + {b} && g.ring <= g'.ring && g.pending <= g'.pending
    requires b in h.blocks && BlockCovered(h, g', b)
    ensures Progress(h, g, g')
  {
  }

  /** Marking a continuation and then everything on its stacks. */
  lemma ProgressCont(h: Heap, g: Greys, g1: Greys, g': Greys, b: nat)
    requires g1 == g.(marked := g.marked + {b}) && Progress(h, g1, g') && b in h.blocks && BlockCovered(h, g', b)
    ensures Progress(h, g, g')
  {
    ProgressMarked(h, g, g1);
  }

  /** A pointer may leave the ring once its block is marked. */
  lemma ProgressPop(h: Heap, g: Greys, ring: set<nat>, g': Greys, p: nat)
    requires g.ring <= ring + {p} && Progress(h, g.(ring := ring), g') && Resolve(h, p) in g'.marked
    ensures Progress(h, g, g')
  {
    forall a | Covered(h, g, a) ensures Covered(h, g', a) {
      assert Covered(h, g.(ring := ring), a) || Load(h, a) == Ptr(p);
    }
  }

  /** Fields may stop pending once what they hold is in the ring. */
  lemma ProgressScan(h: Heap, g: Greys, g': Greys, s: Span)
    requires g'.marked == g.marked && g.ring <= g'.ring
    requires forall a :: a in g.pending ==> a in g'.pending || InSpan(s, a)
    requires forall a :: InSpan(s, a) && Load(h, a).Ptr? ==> a in g'.pending || Load(h, a).p in g'.ring
    ensures Progress(h, g, g')
  {
    forall a | Covered(h, g, a) ensures Covered(h, g', a) {
      assert InSpan(s, a) || !InSpan(s, a);
    }
  }

  /** Fields may stop pending once what they hold is marked. */
  lemma ProgressChunk(h: Heap, g: Greys, g1: Greys, g': Greys, fields: set<nat>)
    requires g1.marked == g.marked && g1.ring == g.ring && g.pending <= g1.pending + fields
    requires Progress(h, g1, g') && forall a :: a in fields ==> Dark(h, g'.marked, Load(h, a))
    ensures Progress(h, g, g')
  {
    forall a | Covered(h, g, a) ensures Covered(h, g', a) {
      assert Covered(h, g1, a) || a in fields;
    }
  }

  lemma ProgressMarked(h: Heap, g: Greys, g1: Greys)
    requires g.marked <= g1.marked && g.ring <= g1.ring && g.pending <= g1.pending
    ensures forall a :: Covered(h, g, a) ==> Covered(h, g1, a)
  {
  }

  function Unmarked(h: Heap, marked: set<nat>): set<nat> {
    h.blocks.Keys - marked
  }

  lemma MarkShrinks(h: Heap, marked: set<nat>, b: nat)
    requires b in h.blocks && b !in marked
    ensures |Unmarked(h, marked + {b})| < |Unmarked(h, marked)|
  {
    assert Unmarked(h, marked) == Unmarked(h, marked + {b}) + {b};
  }

  lemma MarkedShrinks(h: Heap, g: Greys, g': Greys)
    requires Progress(h, g, g')
    ensures g.marked == g'.marked || |Unmarked(h, g'.marked)| < |Unmarked(h, g.marked)|
  {
    SubsetCardinality(Unmarked(h, g'.marked), Unmarked(h, g.marked));
    if g.marked != g'.marked {
      var b :| b in g'.marked && b !in g.marked;
      assert b in Unmarked(h, g.marked) && b !in Unmarked(h, g'.marked);
    }
  }

  lemma MarkedMonotone(h: Heap, marked: set<nat>, marked': set<nat>)
    requires marked <= marked'
    ensures |Unmarked(h, marked')| <= |Unmarked(h, marked)|
  {
    SubsetCardinality(Unmarked(h, marked'), Unmarked(h, marked));
  }

  /** A block holds a pointer to another one, in a scanned field or on a stack. */
  ghost predicate PointsTo(h: Heap, b: nat, c: nat) {
    b in h.blocks &&
    match h.blocks[b].kind
    case Scan(env) => exists a :: b + env <= a < b + h.blocks[b].wosize && Holds(h, Load(h, a), c)
    case NoScan => false
    case Cont(roots) => exists i :: 0 <= i < |roots| && Holds(h, roots[i], c)
  }

  ghost predicate Holds(h: Heap, v: Value, c: nat) {
    v.Ptr? && Resolve(h, v.p) == c
  }

  ghost predicate IsPath(h: Heap, path: seq<nat>) {
    path != [] && forall i :: 0 < i < |path| ==> PointsTo(h, path[i - 1], path[i])
  }

  /** When marking is done, with nothing in the ring and nothing pending, everything
      reachable from a marked block is marked, if nothing was lost before. */
  lemma {:induction false} DoneMarked(h: Heap, g0: Greys, g: Greys, path: seq<nat>)
    requires Progress(h, g0, g) && g.ring == {} && g.pending == {}
    requires forall b :: b in g0.marked ==> BlockCovered(h, g0, b)
    requires IsPath(h, path) && path[0] in g.marked
    ensures path[|path| - 1] in g.marked
    decreases |path|
  {
    if |path| > 1 {
      var n := |path| - 1;
      DoneMarked(h, g0, g, path[..n]);
      var b := path[n - 1];
      assert BlockCovered(h, g, b) by {
        if b in g0.marked {
          CoveredKept(h, g0, g, b);
        }
      }
      assert PointsTo(h, path[n - 1], path[n]);
      PointeeMarked(h, g, b, path[n]);
    }
  }

  lemma PointeeMarked(h: Heap, g: Greys, b: nat, c: nat)
    requires g.ring == {} && g.pending == {} && BlockCovered(h, g, b) && PointsTo(h, b, c)
    ensures c in g.marked
  {
    var block := h.blocks[b];
    if block.kind.Scan? {
      var a :| b + block.kind.env <= a < b + block.wosize && Holds(h, Load(h, a), c);
      assert Covered(h, g, a);
    } else {
      var i :| 0 <= i < |block.kind.roots| && Holds(h, block.kind.roots[i], c);
      assert Dark(h, g.marked, block.kind.roots[i]);
    }
  }

  // -------------------------------------------------------------- what is not marked

  /** A set of blocks that no pointer leads out of. */
  ghost predicate Closed(h: Heap, limit: set<nat>) {
    forall b :: b in limit ==> b in h.blocks && BlockCovered(h, Greys(limit, {}, {}), b)
  }

  ghost predicate LeadInto(h: Heap, limit: set<nat>, fields: set<nat>) {
    forall a :: a in fields ==> Dark(h, limit, Load(h, a))
  }

  lemma FieldsLead(h: Heap, limit: set<nat>, b: nat, s: Span)
    requires Closed(h, limit) && b in limit && b in h.blocks && h.blocks[b].kind.Scan?
    requires b + h.blocks[b].kind.env <= s.start && s.end <= b + h.blocks[b].wosize
    ensures LeadInto(h, limit, Fields(s))
  {
    assert BlockCovered(h, Greys(limit, {}, {}), b);
    forall a | a in Fields(s) ensures Dark(h, limit, Load(h, a)) {
      assert Covered(h, Greys(limit, {}, {}), a);
    }
  }

  /** What marking from `g` can get to: blocks marked, and those that a pending field or a
      pointer in the ring leads to. */
  ghost predicate Source(h: Heap, g: Greys, b: nat) {
    || b in g.marked
    || (exists a :: a in g.pending && Holds(h, Load(h, a), b))
    || (exists p :: p in g.ring && Resolve(h, p) == b)
  }

  ghost predicate Reachable(h: Heap, g: Greys, b: nat) {
    exists path :: IsPath(h, path) && Source(h, g, path[0]) && path[|path| - 1] == b
  }

  ghost function Reach(h: Heap, g: Greys): set<nat> {
    set b | b in h.blocks && Reachable(h, g, b)
  }

  lemma ReachPointee(h: Heap, g: Greys, b: nat, c: nat)
    requires Reachable(h, g, b) && PointsTo(h, b, c)
    ensures Reachable(h, g, c)
  {
    var path :| IsPath(h, path) && Source(h, g, path[0]) && path[|path| - 1] == b;
    var path' := path + [c];
    forall i | 0 < i < |path'| ensures PointsTo(h, path'[i - 1], path'[i]) {
      assert i < |path| ==> PointsTo(h, path[i - 1], path[i]);
    }
    assert IsPath(h, path') && path'[|path'| - 1] == c;
  }

  lemma SourceReachable(h: Heap, g: Greys, b: nat)
    requires Source(h, g, b)
    ensures Reachable(h, g, b)
  {
    assert IsPath(h, [b]) && [b][|[b]| - 1] == b;
  }

  lemma ReachBlock(h: Heap, g: Greys, b: nat)
    requires HeapOk(h) && b in Reach(h, g)
    ensures BlockCovered(h, Greys(Reach(h, g), {}, {}), b)
  {
    var block, r := h.blocks[b], Reach(h, g);
    assert BlockOk(h, b);
    if block.kind.Scan? {
      forall a | b + block.kind.env <= a < b + block.wosize ensures Covered(h, Greys(r, {}, {}), a) {
        assert ValueOk(h, Load(h, a));
        if Load(h, a).Ptr? {
          assert Holds(h, Load(h, a), Resolve(h, Load(h, a).p));
          ReachPointee(h, g, b, Resolve(h, Load(h, a).p));
        }
      }
    } else if block.kind.Cont? {
      forall i | 0 <= i < |block.kind.roots| ensures Dark(h, r, block.kind.roots[i]) {
        var v := block.kind.roots[i];
        if v.Ptr? {
          assert Holds(h, v, Resolve(h, v.p));
          ReachPointee(h, g, b, Resolve(h, v.p));
        }
      }
    }
  }

  /** What can be reached is such a set, so that it bounds what gets marked. */
  lemma ReachClosed(h: Heap, g: Greys)
    requires HeapOk(h) && g.marked <= h.blocks.Keys
    ensures Closed(h, Reach(h, g)) && g.marked <= Reach(h, g) && LeadInto(h, Reach(h, g), g.pending)
  {
    forall b | b in Reach(h, g) ensures BlockCovered(h, Greys(Reach(h, g), {}, {}), b) {
      ReachBlock(h, g, b);
    }
    forall b | b in g.marked ensures b in Reach(h, g) {
      SourceReachable(h, g, b);
    }
    forall a | a in g.pending ensures Dark(h, Reach(h, g), Load(h, a)) {
      assert ValueOk(h, Load(h, a));
      if Load(h, a).Ptr? {
        assert Holds(h, Load(h, a), Resolve(h, Load(h, a).p));
        SourceReachable(h, g, Resolve(h, Load(h, a).p));
      }
    }
  }

  ghost predicate AllCovered(h: Heap, g: Greys) {
    forall b :: b in g.marked ==> BlockCovered(h, g, b)
  }

  /** When marking is done it has marked exactly what can be reached, if nothing was lost
      before and it has kept within that bound. */
  lemma DoneExact(h: Heap, g0: Greys, g: Greys)
    requires HeapOk(h) && Progress(h, g0, g) && g0.ring == {} && g.ring == {} && g.pending == {}
    requires AllCovered(h, g0) && g.marked <= Reach(h, g0)
    ensures g.marked == Reach(h, g0)
  {
    forall b | b in Reach(h, g0) ensures b in g.marked {
      var path :| IsPath(h, path) && Source(h, g0, path[0]) && path[|path| - 1] == b;
      if path[0] !in g0.marked {
        var a :| a in g0.pending && Holds(h, Load(h, a), path[0]);
        assert Covered(h, g0, a) && Covered(h, g, a);
      }
      DoneMarked(h, g0, g, path);
    }
  }

  // ------------------------------------------------------------- the prefetch ring

  const RING_SIZE: nat := 256
  const RING_MIN: nat := 64

  /** The place in the buffer of the i-th item after number `d`. */
  function Index(d: nat, i: nat): nat {
    (d + i) % RING_SIZE
  }

  lemma RingSlots(d: nat, i: nat, n: nat)
    requires i < n < RING_SIZE
    ensures Index(d, i) != Index(d, n)
  {
  }

  ghost function Elements(items: seq<nat>): set<nat> {
    set i | 0 <= i < |items| :: items[i]
  }

  class Ring {
    var enqueued: nat
    var dequeued: nat
    var waterline: nat
    const buffer: array<nat>
    ghost var items: seq<nat>

    ghost predicate Valid()
      reads this, buffer
    {
      && buffer.Length == RING_SIZE && dequeued <= enqueued && enqueued - dequeued == |items| <= RING_SIZE
      && waterline <= RING_MIN
      && forall i: nat :: i < |items| ==> items[i] == buffer[Index(dequeued, i)]
    }

    constructor ()
      ensures Valid() && fresh(buffer) && items == [] && waterline == RING_MIN
    {
      enqueued, dequeued, waterline, items := 0, 0, RING_MIN, [];
      buffer := new nat[RING_SIZE];
    }

    /** pb_push */
    method Push(v: nat)
      requires Valid() && |items| < RING_SIZE
      modifies this`enqueued, this`items, buffer
      ensures Valid() && items == old(items) + [v]
    {
      forall i: nat | i < |items| ensures Index(dequeued, i) != enqueued % RING_SIZE {
        RingSlots(dequeued, i, |items|);
      }
      buffer[enqueued % RING_SIZE] := v;
      enqueued := enqueued + 1;
      items := items + [v];
    }

    /** pb_pop */
    method Pop() returns (v: nat)
      requires Valid() && items != []
      modifies this`dequeued, this`items
      ensures Valid() && v == old(items)[0] && items == old(items)[1..]
    {
      v := buffer[dequeued % RING_SIZE];
      assert v == items[0];
      forall i: nat | i < |items| - 1 ensures items[1..][i] == buffer[Index(dequeued + 1, i)] {
        assert items[i + 1] == buffer[Index(dequeued, i + 1)];
      }
      dequeued := dequeued + 1;
      items := items[1..];
    }
  }

  // --------------------------------------------------------------------- marking

  class Marker {
    const h: Heap
    const stk: Stack
    var marked: set<nat>

    /** What the allocator and the heap size make of a full mark stack. */
    const heapBsize: nat
    const canGrow: bool

    /** Any closed set that marking starts in: it stays in there. */
    ghost const limit: set<nat>

    ghost predicate Valid()
      reads this, stk, stk.compressed
    {
      && HeapOk(h) && stk.Valid()
      && Closed(h, limit) && marked <= limit && LeadInto(h, limit, stk.pending)
    }

    /** Marking stops, with a fatal error, only in this state. */
    ghost predicate NoRoom()
      reads this, stk, stk.compressed
    {
      stk.Exhausted(heapBsize, canGrow)
    }

    ghost function View(ring: set<nat>): Greys
      reads this, stk
    {
      Greys(marked, ring, stk.pending)
    }

    /** A marker that will stay within what it can reach. */
    constructor (h: Heap, stk: Stack, marked: set<nat>, heapBsize: nat, canGrow: bool)
      requires HeapOk(h) && stk.Valid() && marked <= h.blocks.Keys
      ensures Valid() && this.h == h && this.stk == stk && this.marked == marked
      ensures this.heapBsize == heapBsize && this.canGrow == canGrow
      ensures limit == Reach(h, Greys(marked, {}, stk.pending))
    {
      ReachClosed(h, Greys(marked, {}, stk.pending));
      this.h, this.stk, this.marked, this.heapBsize, this.canGrow := h, stk, marked, heapBsize, canGrow;
      limit := Reach(h, Greys(marked, {}, stk.pending));
    }

    /** mark_stack_push_block: the fields of a block just marked, without a first few
        that hold no pointer; and the work done by skipping those. */
    method PushBlock(b: nat, ghost ring: set<nat>) returns (ok: bool, work: nat)
      requires Valid() && b in h.blocks && h.blocks[b].kind.Scan? && b in limit
      modifies stk, stk.compressed
      ensures ok ==> Valid() && (stk.compressed == old(stk.compressed) || fresh(stk.compressed))
      ensures ok ==> old(View(ring)).pending <= View(ring).pending && BlockCovered(h, View(ring), b)
      ensures work <= 1 + h.blocks[b].wosize - h.blocks[b].kind.env
      ensures work > h.blocks[b].wosize - h.blocks[b].kind.env ==> stk.spans == old(stk.spans)
      ensures !ok ==> NoRoom()
    {
      assert BlockOk(h, b);
      var offset, wosize := h.blocks[b].kind.env, h.blocks[b].wosize;
      var end := if wosize < 8 then wosize else 8;
      var i := offset;
      while i < end && Load(h, b + i) == Other
        invariant offset <= i && (i <= end || i == offset)
        invariant forall a :: b + offset <= a < b + i ==> Load(h, a) == Other
      {
        i := i + 1;
      }
      if i == wosize {
        return true, 1 + wosize - offset;
      }
      work := i - offset;
      FieldsLead(h, limit, b, Span(b + i, b + wosize));
      ok := stk.PushRange(Span(b + i, b + wosize), heapBsize, canGrow);
    }

    /** caml_darken and mark_slice_darken: marks what a value points to, and makes its
        fields pending. The work is counted by mark_slice_darken only. */
    method Darken(v: Value, ghost ring: set<nat>) returns (ok: bool, work: nat)
      requires Valid() && Dark(h, limit, v)
      modifies this`marked, stk, stk.compressed
      ensures ok ==> Valid() && (stk.compressed == old(stk.compressed) || fresh(stk.compressed))
      ensures ok ==> Progress(h, old(View(ring)), View(ring)) && Dark(h, marked, v)
      ensures ok ==> marked != old(marked) || (stk.spans == old(stk.spans) && View(ring) == old(View(ring)))
      ensures Dark(h, old(marked), v) ==> ok && marked == old(marked) && work == 0
      ensures !Dark(h, old(marked), v) ==> work <= 1 + h.blocks[Resolve(h, v.p)].wosize
      ensures !ok ==> NoRoom()
      decreases |Unmarked(h, marked)|, 1
    {
      if v == Other {
        return true, 0;
      }
      var b := Resolve(h, v.p);
      if b in marked {
        return true, 0;
      }
      work := h.blocks[b].wosize;
      if h.blocks[b].kind.Cont? {
        ok := DarkenCont(b, ring);
        return;
      }
      ghost var g := View(ring);
      marked := marked + {b};
      ok := true;
      if h.blocks[b].kind.Scan? {
        ok, work := PushBlock(b, ring);
      }
      if ok {
        ProgressMark(h, g, View(ring), b);
      }
    }

    /** caml_darken_cont */
    method DarkenCont(b: nat, ghost ring: set<nat>) returns (ok: bool)
      requires Valid() && b in h.blocks && b !in marked && h.blocks[b].kind.Cont? && b in limit
      modifies this`marked, stk, stk.compressed
      ensures ok ==> Valid() && (stk.compressed == old(stk.compressed) || fresh(stk.compressed))
      ensures ok ==> Progress(h, old(View(ring)), View(ring)) && b in marked
      ensures !ok ==> NoRoom()
      decreases |Unmarked(h, marked)|, 0
    {
      assert BlockOk(h, b);
      assert BlockCovered(h, Greys(limit, {}, {}), b);
      MarkShrinks(h, marked, b);
      ghost var g := View(ring);
      marked := marked + {b};
      ghost var g1 := View(ring);
      ok := DarkenAll(h.blocks[b].kind.roots, ring);
      if ok {
        ProgressCont(h, g, g1, View(ring), b);
      }
    }

    /** caml_scan_stack with caml_darken */
    method DarkenAll(roots: seq<Value>, ghost ring: set<nat>) returns (ok: bool)
      requires Valid() && forall i :: 0 <= i < |roots| ==> Dark(h, limit, roots[i])
      modifies this`marked, stk, stk.compressed
      ensures ok ==> Valid() && (stk.compressed == old(stk.compressed) || fresh(stk.compressed))
      ensures ok ==> Progress(h, old(View(ring)), View(ring))
      ensures ok ==> forall i :: 0 <= i < |roots| ==> Dark(h, marked, roots[i])
      ensures !ok ==> NoRoom()
      decreases |Unmarked(h, marked)|, 2
    {
      ghost var g := View(ring);
      var i := 0;
      while i < |roots|
        invariant i <= |roots| && Valid() && (stk.compressed == old(stk.compressed) || fresh(stk.compressed))
        invariant Progress(h, g, View(ring))
        invariant forall j :: 0 <= j < i ==> Dark(h, marked, roots[j])
      {
        ghost var g1 := View(ring);
        MarkedMonotone(h, g.marked, marked);
        var work;
        ok, work := Darken(roots[i], ring);
        if !ok {
          return;
        }
        ProgressTrans(h, g, g1, View(ring));
        i := i + 1;
      }
      ok := true;
    }

    /** What happens to a pointer taken from the ring: a block already marked is left
        alone; another is marked, and `me` are its fields to scan now. */
    method MarkPopped(p: nat, budget: int, ghost ring: set<nat>) returns (ok: bool, left: int, me: Span)
      requires Valid() && Resolve(h, p) in limit
      modifies this`marked, stk, stk.compressed
      ensures ok ==> Valid() && (stk.compressed == old(stk.compressed) || fresh(stk.compressed))
      ensures ok ==> SpanOk(me) && LeadInto(h, limit, Fields(me))
      ensures ok ==> Resolve(h, p) in marked && old(marked) <= marked
      ensures ok ==> var g := View(ring);
        Progress(h, old(View(ring)), g.(pending := g.pending + Fields(me)))
      ensures ok && marked == old(marked) ==> stk.spans == old(stk.spans) && me.start == me.end && left == budget
                                              && View(ring) == old(View(ring))
      ensures !ok ==> NoRoom()
    {
      ok, left, me := true, budget, Span(BITS_PER_WORD, BITS_PER_WORD);
      ghost var g := View(ring);
      var b := Resolve(h, p);
      if b in marked {
        return;
      }
      assert BlockOk(h, b);
      var block := h.blocks[b];
      if block.kind.Cont? {
        ok := DarkenCont(b, ring);
        left := left - block.wosize;
        if ok {
          ghost var g1 := View(ring);
          ProgressMore(h, g1, g1.(pending := g1.pending + Fields(me)));
          ProgressTrans(h, g, g1, g1.(pending := g1.pending + Fields(me)));
        }
        return;
      }
      marked := marked + {b};
      left := left - 1;
      if block.kind.NoScan? {
        left := left - block.wosize;
      } else {
        left := left - block.kind.env;
        me := Span(b + block.kind.env, b + block.wosize);
        FieldsLead(h, limit, b, me);
      }
      ghost var g1 := View(ring);
      ProgressMark(h, g, g1.(pending := g1.pending + Fields(me)), b);
    }

    ghost predicate RingOk(items: seq<nat>) {
      forall i :: 0 <= i < |items| ==> Resolve(h, items[i]) in limit
    }

    /** The scanning loop: children go to the ring, until the budget is used up or the
        ring is full; returns how far it came. */
    method ScanFields(me: Span, budget: int, pb: Ring) returns (start: nat, left: int)
      requires HeapOk(h) && pb.Valid() && RingOk(pb.items) && me.start <= me.end
      requires LeadInto(h, limit, Fields(me))
      modifies pb`enqueued, pb`items, pb.buffer
      ensures pb.Valid() && RingOk(pb.items) && old(pb.items) <= pb.items
      ensures me.start <= start <= me.end && left <= budget && (start == me.start ==> pb.items == old(pb.items))
      ensures me.start == me.end ==> left == budget
      ensures budget > 0 && |old(pb.items)| < RING_SIZE && me.start < me.end ==> start > me.start
      ensures forall a :: me.start <= a < start && Load(h, a).Ptr? ==> Load(h, a).p in Elements(pb.items)
    {
      var scanEnd := me.end;
      if scanEnd - me.start > budget {
        scanEnd := me.start + if budget < 0 then 0 else budget;
      }
      start, left := me.start, budget;
      while start < scanEnd
        invariant me.start <= start <= scanEnd <= me.end && left <= budget
        invariant pb.Valid() && RingOk(pb.items) && old(pb.items) <= pb.items
        invariant start == me.start ==> pb.items == old(pb.items) && left == budget
        invariant forall a :: me.start <= a < start && Load(h, a).Ptr? ==> Load(h, a).p in Elements(pb.items)
      {
        var child := Load(h, start);
        assert start in Fields(me);
        left := left - 1;
        if child.Ptr? {
          if pb.enqueued == pb.dequeued + RING_SIZE {
            break;
          }
          ghost var items := pb.items;
          pb.Push(child.p);
          assert pb.items[|items|] == child.p;
          assert Elements(items) <= Elements(pb.items) by {
            assert forall i :: 0 <= i < |items| ==> pb.items[i] == items[i];
          }
        }
        start := start + 1;
      }
    }

    /** Pushes what a scan has left over, and then lets the ring drain to its minimum. */
    method PushRest(rest: Span, pb: Ring) returns (ok: bool)
      requires Valid() && pb.Valid() && SpanOk(rest) && LeadInto(h, limit, Fields(rest))
      modifies stk, stk.compressed, pb`waterline
      ensures ok ==> Valid() && (stk.compressed == old(stk.compressed) || fresh(stk.compressed))
      ensures pb.Valid()
      ensures ok ==> stk.pending == old(stk.pending) + Fields(rest)
      ensures ok && rest.start < rest.end ==> Weight(stk.spans) <= Weight(old(stk.spans)) + Length(rest) + 1
      ensures rest.start == rest.end ==> ok && stk.spans == old(stk.spans) && pb.waterline == old(pb.waterline)
      ensures !ok ==> NoRoom()
    {
      ok := true;
      if rest.start < rest.end {
        ok := stk.PushRange(rest, heapBsize, canGrow);
        if ok && pb.enqueued - pb.dequeued > RING_MIN {
          pb.waterline := RING_MIN;
        }
      }
    }

    /** The end of an iteration of do_some_marking: scans `me`, and leaves what is left
        of it on the stack. */
    method ScanSpan(me: Span, budget: int, pb: Ring) returns (ok: bool, left: int)
      requires Valid() && pb.Valid() && RingOk(pb.items) && SpanOk(me) && LeadInto(h, limit, Fields(me))
      modifies stk, stk.compressed, pb`enqueued, pb`items, pb`waterline, pb.buffer
      ensures ok ==> Valid() && (stk.compressed == old(stk.compressed) || fresh(stk.compressed))
      ensures ok ==> pb.Valid() && RingOk(pb.items) && left <= budget
      ensures ok ==> var g := old(View(Elements(pb.items)));
        Progress(h, g.(pending := g.pending + Fields(me)), View(Elements(pb.items)))
      ensures ok && budget > 0 && |old(pb.items)| < RING_SIZE ==>
        Weight(stk.spans) <= Weight(old(stk.spans)) + Length(me)
      ensures ok ==> stk.pending <= old(stk.pending) + Fields(me)
      ensures ok && me.start == me.end ==>
        stk.spans == old(stk.spans) && pb.items == old(pb.items) && pb.waterline == old(pb.waterline) && left == budget
      ensures !ok ==> NoRoom()
    {
      ghost var g := View(Elements(pb.items));
      var start;
      start, left := ScanFields(me, budget, pb);
      ok := PushRest(Span(start, me.end), pb);
      if !ok {
        return;
      }
      ghost var g' := View(Elements(pb.items));
      assert g.ring <= g'.ring by {
        assert forall i :: 0 <= i < |old(pb.items)| ==> pb.items[i] == old(pb.items)[i];
      }
      ProgressScan(h, g.(pending := g.pending + Fields(me)), g', me);
    }

    /** Dequeues from the ring, and marks. */
    method MarkFromRing(budget: int, pb: Ring) returns (ok: bool, left: int, me: Span)
      requires Valid() && pb.Valid() && RingOk(pb.items) && pb.items != []
      modifies this`marked, stk, stk.compressed, pb`dequeued, pb`items
      ensures ok ==> Valid() && (stk.compressed == old(stk.compressed) || fresh(stk.compressed))
      ensures pb.Valid() && RingOk(pb.items) && pb.items == old(pb.items)[1..]
      ensures ok ==> SpanOk(me) && LeadInto(h, limit, Fields(me)) && old(marked) <= marked
      ensures ok ==> var g := View(Elements(pb.items));
        Progress(h, old(View(Elements(pb.items))), g.(pending := g.pending + Fields(me)))
      ensures ok && marked == old(marked) ==>
        stk.spans == old(stk.spans) && stk.pending == old(stk.pending) && me.start == me.end && left == budget
      ensures !ok ==> NoRoom()
    {
      ghost var g := View(Elements(pb.items));
      var p := pb.Pop();
      assert Resolve(h, p) in limit;
      ghost var ring := Elements(pb.items);
      RingTail(old(pb.items));
      ok, left, me := MarkPopped(p, budget, ring);
      if ok {
        ghost var g' := View(ring);
        ProgressPop(h, g, ring, g'.(pending := g'.pending + Fields(me)), p);
      }
    }

    /** What decreases from one iteration to the next: blocks to mark, words on the
        stack, pointers in the ring, the waterline. */
    ghost function Measure(pb: Ring): Measures
      reads this, stk, pb
    {
      Measures(|Unmarked(h, marked)|, Weight(stk.spans), |pb.items|, pb.waterline)
    }

    /** Dequeues from the ring while it is above the waterline; otherwise takes a span off
        the stack; with neither, drains the ring, and then there is nothing left to do. */
    method Iterate(budget: int, pb: Ring) returns (ok: bool, more: bool, left: int)
      requires Valid() && pb.Valid() && RingOk(pb.items)
      modifies this`marked, stk, stk.compressed, pb, pb.buffer
      ensures ok ==> Valid() && (stk.compressed == old(stk.compressed) || fresh(stk.compressed))
      ensures ok ==> pb.Valid() && RingOk(pb.items)
      ensures ok ==> Progress(h, old(View(Elements(pb.items))), View(Elements(pb.items)))
      ensures ok && more ==> Smaller(Measure(pb), old(Measure(pb)))
      ensures ok && marked == old(marked) ==>
        Weight(stk.spans) < Weight(old(stk.spans)) || (stk.spans == old(stk.spans) && left == budget)
      ensures ok && marked == old(marked) ==> stk.pending <= old(stk.pending)
      ensures ok && !more ==> pb.items == [] && (left <= 0 || stk.spans == [])
      ensures !ok ==> NoRoom()
    {
      ok, more, left := true, true, budget;
      if pb.enqueued - pb.dequeued > pb.waterline {
        ok, left := MarkNext(left, pb);
      } else if left <= 0 || stk.spans == [] {
        more := Drain(pb);
      } else {
        ok, left := ScanNext(left, pb);
      }
    }

    /** With nothing to take off the stack: the ring is to be emptied, or is empty. */
    method Drain(pb: Ring) returns (more: bool)
      requires Valid() && pb.Valid() && RingOk(pb.items) && |pb.items| <= pb.waterline
      modifies pb`waterline
      ensures pb.Valid() && Progress(h, old(View(Elements(pb.items))), View(Elements(pb.items)))
      ensures more ==> Smaller(Measure(pb), old(Measure(pb)))
      ensures !more ==> pb.items == []
    {
      more := pb.waterline > 0;
      pb.waterline := 0;
      ProgressMore(h, View(Elements(pb.items)), View(Elements(pb.items)));
    }

    method MarkNext(budget: int, pb: Ring) returns (ok: bool, left: int)
      requires Valid() && pb.Valid() && RingOk(pb.items) && pb.items != []
      modifies this`marked, stk, stk.compressed, pb, pb.buffer
      ensures ok ==> Valid() && (stk.compressed == old(stk.compressed) || fresh(stk.compressed))
      ensures ok ==> pb.Valid() && RingOk(pb.items)
      ensures ok ==> Progress(h, old(View(Elements(pb.items))), View(Elements(pb.items)))
      ensures ok ==> marked == old(marked) || |Unmarked(h, marked)| < |Unmarked(h, old(marked))|
      ensures ok && marked == old(marked) ==>
        stk.spans == old(stk.spans) && |pb.items| < |old(pb.items)| && left == budget
      ensures ok && marked == old(marked) ==> stk.pending <= old(stk.pending)
      ensures !ok ==> NoRoom()
    {
      ghost var g := View(Elements(pb.items));
      var me;
      ok, left, me := MarkFromRing(budget, pb);
      if ok {
        ghost var g1 := View(Elements(pb.items));
        ghost var g2 := g1.(pending := g1.pending + Fields(me));
        MarkedShrinks(h, g, g2);
        ok, left := ScanSpan(me, left, pb);
        if ok {
          ProgressTrans(h, g, g2, View(Elements(pb.items)));
        }
      }
    }

    method ScanNext(budget: int, pb: Ring) returns (ok: bool, left: int)
      requires Valid() && pb.Valid() && RingOk(pb.items) && |pb.items| < RING_SIZE && budget > 0 && stk.spans != []
      modifies stk, stk.compressed, pb, pb.buffer
      ensures ok ==> Valid() && (stk.compressed == old(stk.compressed) || fresh(stk.compressed))
      ensures ok ==> pb.Valid() && RingOk(pb.items)
      ensures ok ==> Progress(h, old(View(Elements(pb.items))), View(Elements(pb.items)))
      ensures ok ==> Weight(stk.spans) < Weight(old(stk.spans)) && stk.pending <= old(stk.pending)
      ensures !ok ==> NoRoom()
    {
      var me := stk.Pop();
      ok, left := ScanSpan(me, budget, pb);
    }

    /** An iteration, after others since `g0`. */
    method Turn(budget: int, pb: Ring, ghost g0: Greys) returns (ok: bool, more: bool, left: int)
      requires Valid() && pb.Valid() && RingOk(pb.items) && Progress(h, g0, View(Elements(pb.items)))
      requires marked == g0.marked ==> stk.pending <= g0.pending
      modifies this`marked, stk, stk.compressed, pb, pb.buffer
      ensures ok ==> Valid() && (stk.compressed == old(stk.compressed) || fresh(stk.compressed))
      ensures ok ==> pb.Valid() && RingOk(pb.items) && Progress(h, g0, View(Elements(pb.items)))
      ensures ok && more ==> Smaller(Measure(pb), old(Measure(pb)))
      ensures ok && marked == g0.marked ==> old(marked) == g0.marked && stk.pending <= g0.pending
      ensures ok && marked == g0.marked ==>
        Weight(stk.spans) < Weight(old(stk.spans)) || (stk.spans == old(stk.spans) && left == budget)
      ensures ok && !more ==> pb.items == [] && (left <= 0 || stk.spans == [])
      ensures !ok ==> NoRoom()
    {
      ghost var g := View(Elements(pb.items));
      ok, more, left := Iterate(budget, pb);
      if ok {
        ProgressTrans(h, g0, g, View(Elements(pb.items)));
      }
    }

    /** do_some_marking. It returns with an empty ring, with work left only when the
        budget is used up, and no field lost: see Progress. */
    method DoSomeMarking(budget: int) returns (ok: bool, left: int)
      requires Valid()
      modifies this`marked, stk, stk.compressed
      ensures ok ==> Valid() && (stk.compressed == old(stk.compressed) || fresh(stk.compressed))
      ensures ok ==> Progress(h, old(View({})), View({})) && (left <= 0 || stk.spans == [])
      ensures ok && marked == old(marked) ==> stk.pending <= old(stk.pending)
      ensures ok && marked == old(marked) ==>
        Weight(stk.spans) < Weight(old(stk.spans)) || (stk.spans == old(stk.spans) && left == budget)
      ensures !ok ==> NoRoom()
    {
      var pb := new Ring();
      left := budget;
      ghost var g0 := View({});
      assert Elements(pb.items) == {};
      ProgressMore(h, g0, g0);
      var more := true;
      ok := true;
      while more
        invariant ok && Valid() && (stk.compressed == old(stk.compressed) || fresh(stk.compressed))
        invariant pb.Valid() && RingOk(pb.items) && Progress(h, g0, View(Elements(pb.items)))
        invariant !more ==> pb.items == [] && (left <= 0 || stk.spans == [])
        invariant marked == g0.marked ==> stk.pending <= g0.pending
        invariant marked == g0.marked ==>
          Weight(stk.spans) < Weight(old(stk.spans)) || (stk.spans == old(stk.spans) && left == budget)
        decreases more, Measure(pb).unmarked, Measure(pb).weight, Measure(pb).ring, Measure(pb).waterline
      {
        ok, more, left := Turn(left, pb, g0);
        if !ok {
          return;
        }
      }
      assert Elements(pb.items) == {};
    }

    /** One chunk of the compressed stack in mark: every field of it is darkened. */
    method DarkenChunk(key: nat, bits: Bits, budget: int) returns (ok: bool, left: int)
      requires Valid() && LeadInto(h, limit, ChunkFields(key, bits))
      requires forall o :: o in bits ==> o < BITS_PER_WORD
      modifies this`marked, stk, stk.compressed
      ensures ok ==> Valid() && (stk.compressed == old(stk.compressed) || fresh(stk.compressed))
      ensures ok ==> Progress(h, old(View({})), View({}))
      ensures ok ==> forall a :: a in ChunkFields(key, bits) ==> Dark(h, marked, Load(h, a))
      ensures ok && marked == old(marked) ==> stk.pending == old(stk.pending) && stk.spans == old(stk.spans)
      ensures left <= budget && (ok && marked == old(marked) ==> left == budget)
      ensures !ok ==> NoRoom()
    {
      ghost var g := View({});
      ProgressMore(h, g, g);
      left := budget;
      var ofs := 0;
      while ofs < BITS_PER_WORD
        invariant ofs <= BITS_PER_WORD && Valid() && (stk.compressed == old(stk.compressed) || fresh(stk.compressed))
        invariant Progress(h, g, View({}))
        invariant forall o :: 0 <= o < ofs && o in bits ==> Dark(h, marked, Load(h, key + o))
        invariant marked == g.marked ==> stk.pending == g.pending && stk.spans == old(stk.spans) && left == budget
        invariant left <= budget
      {
        if ofs in bits {
          ghost var g1 := View({});
          assert key + ofs in ChunkFields(key, bits);
          var work;
          ok, work := Darken(Load(h, key + ofs), {});
          left := left - work;
          if !ok {
            return;
          }
          ProgressTrans(h, g, g1, View({}));
        }
        ofs := ofs + 1;
      }
      ok := true;
    }

    /** mark: alternates between the stack and the compressed stack. When it is done,
        nothing is pending, and exactly what could be reached is marked; otherwise the
        budget is used up, and was not in vain: a block has been marked, or there is less
        to scan. No field is lost. */
    method Mark(budget: int) returns (ok: bool, left: int, done: bool)
      requires Valid()
      modifies this`marked, stk, stk.compressed
      ensures ok ==> Valid() && Progress(h, old(View({})), View({}))
      ensures ok && done ==> stk.pending == {}
      ensures ok && done && limit == Reach(h, old(View({}))) && AllCovered(h, old(View({}))) ==>
        marked == Reach(h, old(View({})))
      ensures ok && !done ==> left <= 0
      ensures ok && !done && budget > 0 && marked == old(marked) ==>
        Weight(stk.spans) < Weight(old(stk.spans)) || stk.pending < old(stk.pending)
      ensures !ok ==> NoRoom()
    {
      ghost var g0 := View({});
      ProgressMore(h, g0, g0);
      left, done, ok := budget, false, true;
      while left > 0 && !done
        invariant ok && Valid() && (stk.compressed == old(stk.compressed) || fresh(stk.compressed))
        invariant Progress(h, g0, View({})) && (done ==> stk.pending == {})
        invariant done && limit == Reach(h, g0) && AllCovered(h, g0) ==> marked == Reach(h, g0)
        invariant marked == g0.marked ==> stk.pending <= g0.pending && Weight(stk.spans) <= Weight(old(stk.spans))
        invariant marked == g0.marked && !done && left < budget ==>
          Weight(stk.spans) < Weight(old(stk.spans)) || stk.pending < g0.pending
        decreases left > 0 && !done, |Unmarked(h, marked)|, |stk.pending|
      {
        ghost var g := View({});
        ok, left := DoSomeMarking(left);
        if !ok {
          return;
        }
        ghost var g1 := View({});
        ProgressTrans(h, g0, g, g1);
        MarkedShrinks(h, g, g1);
        if marked == g.marked {
          SubsetCardinality(stk.pending, g.pending);
        }
        if left > 0 {
          if stk.iter < |stk.compressed.table| {
            ok, left := MarkChunk(left);
            if !ok {
              return;
            }
            ProgressTrans(h, g0, g1, View({}));
          } else {
            NothingPending(stk.compressed.table, stk.iter, stk.pending);
            done := true;
            MarkedExactly(g0);
          }
        }
      }
    }

    lemma MarkedExactly(g0: Greys)
      requires Valid() && g0.ring == {} && Progress(h, g0, View({})) && stk.pending == {}
      ensures limit == Reach(h, g0) && AllCovered(h, g0) ==> marked == Reach(h, g0)
    {
      if limit == Reach(h, g0) && AllCovered(h, g0) {
        DoneExact(h, g0, View({}));
      }
    }

    method MarkChunk(budget: int) returns (ok: bool, left: int)
      requires Valid() && stk.spans == [] && stk.iter < |stk.compressed.table|
      modifies this`marked, stk, stk.compressed
      ensures ok ==> Valid() && (stk.compressed == old(stk.compressed) || fresh(stk.compressed))
      ensures ok ==> Progress(h, old(View({})), View({}))
      ensures ok ==> |Unmarked(h, marked)| < |Unmarked(h, old(marked))| || marked == old(marked)
      ensures ok && marked == old(marked) ==>
        stk.spans == old(stk.spans) && stk.pending < old(stk.pending) && |stk.pending| < |old(stk.pending)|
      ensures left <= budget
      ensures !ok ==> NoRoom()
    {
      ghost var g := View({});
      var key, bits := stk.TakeChunk();
      ghost var g1 := View({});
      ok, left := DarkenChunk(key, bits, budget);
      if ok {
        MarkedShrinks(h, g1, View({}));
        ProgressChunk(h, g, g1, View({}), ChunkFields(key, bits));
        SubsetCardinality(g1.pending, g.pending);
      }
    }
  }

  lemma NothingPending(table: seq<Slot>, iter: nat, pending: set<nat>)
    requires PendingIs([], table, iter, pending) && iter >= |table|
    ensures pending == {}
  {
    forall a ensures a !in pending {
      assert !InStack([], a) && !InSlots(table, iter, a);
    }
  }

  datatype Measures = Measures(unmarked: nat, weight: nat, ring: nat, waterline: nat)

  ghost predicate Smaller(m: Measures, n: Measures) {
    || m.unmarked < n.unmarked
    || (m.unmarked == n.unmarked &&
        (m.weight < n.weight
         || (m.weight == n.weight && (m.ring < n.ring || (m.ring == n.ring && m.waterline < n.waterline)))))
  }

  lemma RingTail(items: seq<nat>)
    requires items != []
    ensures Elements(items) <= Elements(items[1..]) + {items[0]}
  {
    forall i | 0 < i < |items| ensures items[i] in Elements(items[1..]) {
      assert items[1..][i - 1] == items[i];
    }
  }
}
