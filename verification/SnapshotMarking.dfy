/**
  Incremental marking of the major heap by several domains at once, as a state
  machine whose steps are single memory actions of one domain (`runtime/major_gc.c`,
  `runtime/memory.c`, `runtime/array.c`, `runtime/fiber.c`).

  The collector promises a snapshot-at-the-beginning: whatever was reachable when
  the roots were darkened survives, however the mutators rewrite the heap meanwhile.
  Mutators may race on one field, and two domains may mark one block twice.
 */
module SnapshotMarking {

  import opened Common

  type Block = nat
  type Domain = nat

  /** A field: an immediate or foreign value, a pointer into a minor heap, or a
      pointer to a major block (an infix pointer stands for its enclosing block). */
  datatype Value = Immediate | Young | Major(block: Block)

  /** Scannable blocks are scanned from `first` on: past the code pointers for a
      closure, from 0 otherwise. A continuation's cells are the values found on
      its fiber stack. Opaque blocks have a tag from No_scan_tag up. */
  datatype Shape = Scannable(first: nat, size: nat) | Opaque | Continuation(size: nat)

  /** NotMarkable is the transient status of a continuation that domain `owner` is
      darkening. */
  datatype Status = Unmarked | Marked | NotMarkable(owner: Domain)

  datatype Header = Header(shape: Shape, status: Status)

  datatype Addr = Addr(block: Block, index: nat)

  datatype Heap = Heap(header: map<Block, Header>, cell: map<Addr, Value>)

  /** A field write between the load of the old value and the store of the new one.
      `darkenFirst` tells caml_modify (darken, then store) from caml_array_fill
      (store, then darken). */
  datatype Write = Write(at: Addr, before: Value, after: Value, darkenFirst: bool)

  datatype Dom = Dom(
    done: bool,               // marking_done
    leaving: bool,            // marking_done set, num_domains_to_mark not yet lowered
    pending: multiset<Addr>,  // mark stack spans and compressed stack bits
    ring: seq<Block>,         // prefetch buffer
    inflight: set<Block>,     // arguments of caml_darken calls in progress
    claimed: set<Block>,      // seen unmarked, header not yet stored
    slots: set<Addr>,         // stack slots of continuations still to be darkened
    write: Option<Write>)

  datatype State = State(
    h: Heap,
    doms: map<Domain, Dom>,
    toMark: int)              // num_domains_to_mark

  const PREFETCH_BUFFER_SIZE := 256
  const FRESH_DOM := Dom(true, false, multiset{}, [], {}, {}, {}, None)

  // A block outside the heap (an out-of-heap header) never needs marking.
  function StatusOf(h: Heap, b: Block): Status {
    if b in h.header then h.header[b].status else Marked
  }

  function ShapeOf(h: Heap, b: Block): Shape {
    if b in h.header then h.header[b].shape else Opaque
  }

  function CellOf(h: Heap, a: Addr): Value {
    if a in h.cell then h.cell[a] else Immediate
  }

  function Cells(b: Block, sh: Shape): set<Addr> {
    match sh
    case Scannable(first, size) => set i | first <= i < size :: Addr(b, i)
    case Continuation(size) => set i | 0 <= i < size :: Addr(b, i)
    case Opaque => {}
  }

  function Target(v: Value): set<Block> {
    if v.Major? then {v.block} else {}
  }

  function SetStatus(h: Heap, b: Block, status: Status): Heap {
    if b in h.header then h.(header := h.header[b := h.header[b].(status := status)]) else h
  }

  function SetCell(h: Heap, at: Addr, v: Value): Heap {
    h.(cell := h.cell[at := v])
  }

  function SetDom(s: State, d: Domain, dom: Dom): State {
    s.(doms := s.doms[d := dom])
  }

  // ---------------------------------------------------------- mutator steps

  predicate CanReadOld(s: State, d: Domain, at: Addr, after: Value, darkenFirst: bool) {
    && d in s.doms && s.doms[d].write.None?
    && ShapeOf(s.h, at.block).Scannable? && at in Cells(at.block, ShapeOf(s.h, at.block))
    && (!darkenFirst ==> after != CellOf(s.h, at))
  }

  function ReadOldStep(s: State, d: Domain, at: Addr, after: Value, darkenFirst: bool): State
    requires CanReadOld(s, d, at, after, darkenFirst)
  {
    var dom, before := s.doms[d], CellOf(s.h, at);
    SetDom(s, d, dom.(
      write := Some(Write(at, before, after, darkenFirst)),
      inflight := if darkenFirst then dom.inflight + Target(before) else dom.inflight))
  }

  predicate CanStore(s: State, d: Domain) {
    && d in s.doms && s.doms[d].write.Some?
    && (s.doms[d].write.value.darkenFirst ==>
          Target(s.doms[d].write.value.before) !! s.doms[d].inflight + s.doms[d].claimed)
  }

  function StoreStep(s: State, d: Domain): State
    requires CanStore(s, d)
  {
    var dom, w := s.doms[d], s.doms[d].write.value;
    SetDom(s.(h := SetCell(s.h, w.at, w.after)), d, dom.(
      write := None,
      inflight := if w.darkenFirst then dom.inflight else dom.inflight + Target(w.before)))
  }

  /** Resuming a continuation empties it: its stack becomes a running stack. The
      caller has gone through caml_darken_cont, which returns once it is Marked. */
  predicate CanContUse(s: State, b: Block) {
    ShapeOf(s.h, b).Continuation? && StatusOf(s.h, b) == Marked
  }

  function ContUseStep(s: State, b: Block): State
    requires CanContUse(s, b)
  {
    s.(h := s.h.(cell := map a | a in s.h.cell :: if a.block == b then Immediate else s.h.cell[a]))
  }

  predicate CanAlloc(s: State, b: Block, fields: map<Addr, Value>) {
    b !in s.h.header && forall a :: a in fields ==> a.block == b
  }

  function AllocStep(s: State, b: Block, sh: Shape, fields: map<Addr, Value>): State
    requires CanAlloc(s, b, fields)
  {
    s.(h := Heap(s.h.header[b := Header(sh, Marked)], s.h.cell + fields))
  }

  /** A minor collection redirects a field from a minor block to its promoted copy. */
  predicate CanPromote(s: State, at: Addr) {
    CellOf(s.h, at).Young?
  }

  function PromoteStep(s: State, at: Addr, b: Block): State
    requires CanPromote(s, at)
  {
    s.(h := SetCell(s.h, at, Major(b)))
  }

  // --------------------------------------------------------- darkening steps

  /** caml_darken reopens marking on a domain that had declared itself done. */
  function Reopen(s: State, d: Domain): State
    requires d in s.doms
  {
    if s.doms[d].done then
      SetDom(s.(toMark := s.toMark + 1), d, s.doms[d].(done := false))
    else s
  }

  predicate CanDarkenSkip(s: State, d: Domain, b: Block) {
    d in s.doms && b in s.doms[d].inflight && StatusOf(s.h, b) != Unmarked
  }

  function DarkenSkipStep(s: State, d: Domain, b: Block): State
    requires CanDarkenSkip(s, d, b)
  {
    SetDom(s, d, s.doms[d].(inflight := s.doms[d].inflight - {b}))
  }

  predicate CanDarkenClaim(s: State, d: Domain, b: Block) {
    && d in s.doms && b in s.doms[d].inflight
    && StatusOf(s.h, b) == Unmarked && !ShapeOf(s.h, b).Continuation?
  }

  function DarkenClaimStep(s: State, d: Domain, b: Block): State
    requires CanDarkenClaim(s, d, b)
  {
    var s1 := Reopen(s, d);
    SetDom(s1, d, s1.doms[d].(
      inflight := s1.doms[d].inflight - {b},
      claimed := s1.doms[d].claimed + {b}))
  }

  predicate CanMarkClaimed(s: State, d: Domain, b: Block) {
    d in s.doms && b in s.doms[d].claimed
  }

  function MarkClaimedStep(s: State, d: Domain, b: Block): State
    requires CanMarkClaimed(s, d, b)
  {
    var dom := s.doms[d];
    SetDom(s.(h := SetStatus(s.h, b, Marked)), d, dom.(
      claimed := dom.claimed - {b},
      pending := dom.pending + multiset(Cells(b, ShapeOf(s.h, b)))))
  }

  /** caml_darken_cont, called by caml_darken or directly by a resuming mutator. */
  predicate CanContBegin(s: State, d: Domain, b: Block, viaDarken: bool) {
    && d in s.doms && (viaDarken ==> b in s.doms[d].inflight)
    && StatusOf(s.h, b) == Unmarked && ShapeOf(s.h, b).Continuation?
  }

  function ContBeginStep(s: State, d: Domain, b: Block, viaDarken: bool): State
    requires CanContBegin(s, d, b, viaDarken)
  {
    var s1 := if viaDarken then Reopen(s, d) else s;
    var dom := s1.doms[d];
    SetDom(s1.(h := SetStatus(s.h, b, NotMarkable(d))), d, dom.(
      inflight := dom.inflight - {b},
      slots := dom.slots + Cells(b, ShapeOf(s.h, b))))
  }

  predicate CanContSlot(s: State, d: Domain, at: Addr) {
    d in s.doms && at in s.doms[d].slots
  }

  function ContSlotStep(s: State, d: Domain, at: Addr): State
    requires CanContSlot(s, d, at)
  {
    var dom := s.doms[d];
    SetDom(s, d, dom.(
      slots := dom.slots - {at},
      inflight := dom.inflight + Target(CellOf(s.h, at))))
  }

  predicate CanContEnd(s: State, d: Domain, b: Block) {
    && d in s.doms && StatusOf(s.h, b) == NotMarkable(d)
    && (forall a :: a in s.doms[d].slots ==> a.block != b)
  }

  function ContEndStep(s: State, d: Domain, b: Block): State
    requires CanContEnd(s, d, b)
  {
    s.(h := SetStatus(s.h, b, Marked))
  }

  // ----------------------------------------------------------- marking steps

  predicate CanScan(s: State, d: Domain, at: Addr) {
    d in s.doms && !s.doms[d].done && at in s.doms[d].pending
  }

  /** A field with nothing to mark. */
  function ScanSkipStep(s: State, d: Domain, at: Addr): State
    requires CanScan(s, d, at)
  {
    SetDom(s, d, s.doms[d].(pending := s.doms[d].pending - multiset{at}))
  }

  /** A mark stack word: its target goes through the prefetch buffer. */
  predicate CanScanPush(s: State, d: Domain, at: Addr) {
    CanScan(s, d, at) && CellOf(s.h, at).Major? && |s.doms[d].ring| < PREFETCH_BUFFER_SIZE
  }

  function ScanPushStep(s: State, d: Domain, at: Addr): State
    requires CanScanPush(s, d, at)
  {
    var dom := s.doms[d];
    SetDom(s, d, dom.(
      pending := dom.pending - multiset{at},
      ring := dom.ring + [CellOf(s.h, at).block]))
  }

  /** A compressed stack bit: its target is darkened at once. */
  function ScanDarkenStep(s: State, d: Domain, at: Addr): State
    requires CanScan(s, d, at)
  {
    var dom := s.doms[d];
    SetDom(s, d, dom.(
      pending := dom.pending - multiset{at},
      inflight := dom.inflight + Target(CellOf(s.h, at))))
  }

  predicate CanRingTake(s: State, d: Domain) {
    d in s.doms && !s.doms[d].done && s.doms[d].ring != []
  }

  function RingTakeStep(s: State, d: Domain): State
    requires CanRingTake(s, d)
  {
    var dom := s.doms[d];
    SetDom(s, d, dom.(ring := dom.ring[1..], inflight := dom.inflight + {dom.ring[0]}))
  }

  predicate CanFinish(s: State, d: Domain) {
    && d in s.doms && !s.doms[d].done && !s.doms[d].leaving
    && s.doms[d].pending == multiset{} && s.doms[d].ring == []
    && s.doms[d].claimed == {} && s.doms[d].inflight == {}
  }

  function FinishStep(s: State, d: Domain): State
    requires CanFinish(s, d)
  {
    SetDom(s, d, s.doms[d].(done := true, leaving := true))
  }

  predicate CanFinishCount(s: State, d: Domain) {
    d in s.doms && s.doms[d].leaving
  }

  function FinishCountStep(s: State, d: Domain): State
    requires CanFinishCount(s, d)
  {
    SetDom(s.(toMark := s.toMark - 1), d, s.doms[d].(leaving := false))
  }

  predicate CanExit(s: State, d: Domain) {
    d in s.doms && s.doms[d] == FRESH_DOM
  }

  // ------------------------------------------------------- the transition system

  datatype Step =
    | ReadOld(d: Domain, at: Addr, after: Value, darkenFirst: bool)
    | Store(d: Domain)
    | ContUse(b: Block)
    | Alloc(b: Block, sh: Shape, fields: map<Addr, Value>)
    | Promote(at: Addr, b: Block)
    | DarkenSkip(d: Domain, b: Block)
    | DarkenClaim(d: Domain, b: Block)
    | MarkClaimed(d: Domain, b: Block)
    | ContBegin(d: Domain, b: Block, viaDarken: bool)
    | ContSlot(d: Domain, at: Addr)
    | ContEnd(d: Domain, b: Block)
    | ScanSkip(d: Domain, at: Addr)
    | ScanPush(d: Domain, at: Addr)
    | ScanDarken(d: Domain, at: Addr)
    | RingTake(d: Domain)
    | Finish(d: Domain)
    | FinishCount(d: Domain)
    | Spawn(d: Domain)
    | Exit(d: Domain)

  predicate Enabled(s: State, st: Step) {
    match st
    case ReadOld(d, at, after, darkenFirst) => CanReadOld(s, d, at, after, darkenFirst)
    case Store(d) => CanStore(s, d)
    case ContUse(b) => CanContUse(s, b)
    case Alloc(b, _, fields) => CanAlloc(s, b, fields)
    case Promote(at, _) => CanPromote(s, at)
    case DarkenSkip(d, b) => CanDarkenSkip(s, d, b)
    case DarkenClaim(d, b) => CanDarkenClaim(s, d, b)
    case MarkClaimed(d, b) => CanMarkClaimed(s, d, b)
    case ContBegin(d, b, viaDarken) => CanContBegin(s, d, b, viaDarken)
    case ContSlot(d, at) => CanContSlot(s, d, at)
    case ContEnd(d, b) => CanContEnd(s, d, b)
    case ScanSkip(d, at) => CanScan(s, d, at) && !CellOf(s.h, at).Major?
    case ScanPush(d, at) => CanScanPush(s, d, at)
    case ScanDarken(d, at) => CanScan(s, d, at)
    case RingTake(d) => CanRingTake(s, d)
    case Finish(d) => CanFinish(s, d)
    case FinishCount(d) => CanFinishCount(s, d)
    case Spawn(d) => d !in s.doms
    case Exit(d) => CanExit(s, d)
  }

  function Apply(s: State, st: Step): State
    requires Enabled(s, st)
  {
    match st
    case ReadOld(d, at, after, darkenFirst) => ReadOldStep(s, d, at, after, darkenFirst)
    case Store(d) => StoreStep(s, d)
    case ContUse(b) => ContUseStep(s, b)
    case Alloc(b, sh, fields) => AllocStep(s, b, sh, fields)
    case Promote(at, b) => PromoteStep(s, at, b)
    case DarkenSkip(d, b) => DarkenSkipStep(s, d, b)
    case DarkenClaim(d, b) => DarkenClaimStep(s, d, b)
    case MarkClaimed(d, b) => MarkClaimedStep(s, d, b)
    case ContBegin(d, b, viaDarken) => ContBeginStep(s, d, b, viaDarken)
    case ContSlot(d, at) => ContSlotStep(s, d, at)
    case ContEnd(d, b) => ContEndStep(s, d, b)
    case ScanSkip(d, at) => ScanSkipStep(s, d, at)
    case ScanPush(d, at) => ScanPushStep(s, d, at)
    case ScanDarken(d, at) => ScanDarkenStep(s, d, at)
    case RingTake(d) => RingTakeStep(s, d)
    case Finish(d) => FinishStep(s, d)
    case FinishCount(d) => FinishCountStep(s, d)
    case Spawn(d) => SetDom(s, d, FRESH_DOM)
    case Exit(d) => s.(doms := s.doms - {d})
  }

  /** A run: the state reached from `s` by taking `steps` in order. */
  ghost predicate Reaches(s: State, steps: seq<Step>, s': State)
    decreases |steps|
  {
    if steps == [] then s == s'
    else Enabled(s, steps[0]) && Reaches(Apply(s, steps[0]), steps[1..], s')
  }

  // ------------------------------------------------------- well-formedness

  ghost predicate DomOk(h: Heap, d: Domain, dom: Dom) {
    && (forall a :: a in dom.pending ==> ShapeOf(h, a.block).Scannable?)
    && (forall a :: a in dom.slots ==> StatusOf(h, a.block) == NotMarkable(d))
    && (forall b :: b in dom.claimed ==> b in h.header && !ShapeOf(h, b).Continuation?)
    && (dom.done ==> dom.pending == multiset{} && dom.ring == [] && dom.claimed == {})
  }

  ghost predicate HeapOk(h: Heap) {
    forall b :: StatusOf(h, b).NotMarkable? ==> ShapeOf(h, b).Continuation?
  }

  ghost predicate WellFormed(s: State) {
    HeapOk(s.h) && forall d :: d in s.doms ==> DomOk(s.h, d, s.doms[d])
  }

  /** `h'` has all of `h`'s blocks, with the same shapes. */
  ghost predicate SameShapes(h: Heap, h': Heap) {
    forall b :: b in h.header ==> b in h'.header && ShapeOf(h', b) == ShapeOf(h, b)
  }

  /** A domain is untouched by a heap change that keeps shapes, and the status of
      the continuations it is darkening. */
  lemma DomOkKept(h: Heap, h': Heap, d: Domain, dom: Dom)
    requires DomOk(h, d, dom) && SameShapes(h, h')
    requires forall b :: StatusOf(h, b) == NotMarkable(d) ==>
               StatusOf(h', b) == NotMarkable(d) || forall a :: a in dom.slots ==> a.block != b
    ensures DomOk(h', d, dom)
  {
  }

  lemma LocalWellFormed(s: State, s': State, d: Domain)
    requires WellFormed(s) && s'.h == s.h && d in s'.doms && s'.doms == s.doms[d := s'.doms[d]]
    requires DomOk(s.h, d, s'.doms[d])
    ensures WellFormed(s')
  {
  }

  lemma MutatorWellFormed(s: State, st: Step)
    requires WellFormed(s) && Enabled(s, st)
    requires st.ReadOld? || st.Store? || st.ContUse? || st.Alloc? || st.Promote?
    ensures WellFormed(Apply(s, st))
  {
    var s' := Apply(s, st);
    assert SameShapes(s.h, s'.h);
    forall d | d in s'.doms ensures DomOk(s'.h, d, s'.doms[d]) {
      assert DomOk(s.h, d, s.doms[d]);
      DomOkKept(s.h, s'.h, d, s.doms[d]);
    }
  }

  lemma DarkenWellFormed(s: State, st: Step)
    requires WellFormed(s) && Enabled(s, st)
    requires st.DarkenSkip? || st.DarkenClaim? || st.ContSlot?
    ensures WellFormed(Apply(s, st))
  {
    assert DomOk(s.h, st.d, s.doms[st.d]);
    LocalWellFormed(s, Apply(s, st), st.d);
  }

  lemma MarkClaimedWellFormed(s: State, d: Domain, b: Block)
    requires WellFormed(s) && CanMarkClaimed(s, d, b)
    ensures WellFormed(MarkClaimedStep(s, d, b))
  {
    var s' := MarkClaimedStep(s, d, b);
    assert DomOk(s.h, d, s.doms[d]);
    forall e | e in s'.doms ensures DomOk(s'.h, e, s'.doms[e]) {
      assert DomOk(s.h, e, s.doms[e]);
      DomOkKept(s.h, s'.h, e, s.doms[e]);
    }
  }

  lemma ContBeginDom(s: State, d: Domain, b: Block, viaDarken: bool)
    requires WellFormed(s) && CanContBegin(s, d, b, viaDarken)
    ensures var s' := ContBeginStep(s, d, b, viaDarken); DomOk(s'.h, d, s'.doms[d])
  {
    assert DomOk(s.h, d, s.doms[d]);
    DomOkKept(s.h, SetStatus(s.h, b, NotMarkable(d)), d, s.doms[d]);
  }

  lemma ContBeginWellFormed(s: State, d: Domain, b: Block, viaDarken: bool)
    requires WellFormed(s) && CanContBegin(s, d, b, viaDarken)
    ensures WellFormed(ContBeginStep(s, d, b, viaDarken))
  {
    var s' := ContBeginStep(s, d, b, viaDarken);
    ContBeginDom(s, d, b, viaDarken);
    forall e | e in s'.doms && e != d ensures DomOk(s'.h, e, s'.doms[e]) {
      assert DomOk(s.h, e, s.doms[e]);
      DomOkKept(s.h, s'.h, e, s.doms[e]);
    }
  }

  lemma ContEndWellFormed(s: State, d: Domain, b: Block)
    requires WellFormed(s) && CanContEnd(s, d, b)
    ensures WellFormed(ContEndStep(s, d, b))
  {
    var s' := ContEndStep(s, d, b);
    forall e | e in s'.doms ensures DomOk(s'.h, e, s'.doms[e]) {
      assert DomOk(s.h, e, s.doms[e]);
      DomOkKept(s.h, s'.h, e, s.doms[e]);
    }
  }

  lemma MarkingWellFormed(s: State, st: Step)
    requires WellFormed(s) && Enabled(s, st)
    requires st.ScanSkip? || st.ScanPush? || st.ScanDarken? || st.RingTake? || st.Finish? || st.FinishCount?
             || st.Spawn?
    ensures WellFormed(Apply(s, st))
  {
    assert st.d in s.doms ==> DomOk(s.h, st.d, s.doms[st.d]);
    LocalWellFormed(s, Apply(s, st), st.d);
  }

  lemma StepWellFormed(s: State, st: Step)
    requires WellFormed(s) && Enabled(s, st)
    ensures WellFormed(Apply(s, st))
  {
    match st
    case MarkClaimed(d, b) => MarkClaimedWellFormed(s, d, b);
    case ContBegin(d, b, viaDarken) => ContBeginWellFormed(s, d, b, viaDarken);
    case ContEnd(d, b) => ContEndWellFormed(s, d, b);
    case Exit(d) =>
    case _ =>
      if st.ReadOld? || st.Store? || st.ContUse? || st.Alloc? || st.Promote? {
        MutatorWellFormed(s, st);
      } else if st.DarkenSkip? || st.DarkenClaim? || st.ContSlot? {
        DarkenWellFormed(s, st);
      } else {
        MarkingWellFormed(s, st);
      }
  }

  // ------------------------------------------------- the snapshot invariant

  ghost predicate Held(dom: Dom, b: Block) {
    b in dom.ring || b in dom.inflight || b in dom.claimed
  }

  /** Marked, being darkened, or on its way to being darkened by some domain. */
  ghost predicate Gray(s: State, b: Block) {
    StatusOf(s.h, b) != Unmarked || exists d :: d in s.doms && Held(s.doms[d], b)
  }

  ghost predicate PendingAt(s: State, a: Addr) {
    exists d :: d in s.doms && (a in s.doms[d].pending || a in s.doms[d].slots)
  }

  ghost predicate Overwriting(dom: Dom, a: Addr) {
    dom.write.Some? && dom.write.value.at == a
  }

  /** What holds, throughout marking, of a field `a` that pointed to `c` in the
      snapshot and of `c`, unless `c` is gray: the field still points to `c`; it is
      pending if its block was reached; and whoever is overwriting it will darken `c`. */
  ghost predicate EdgeOk(s: State, a: Addr, c: Block) {
    Gray(s, c)
    || (&& CellOf(s.h, a) == Major(c)
        && (StatusOf(s.h, a.block) != Unmarked ==> PendingAt(s, a))
        && (forall d :: d in s.doms && Overwriting(s.doms[d], a) ==>
              !s.doms[d].write.value.darkenFirst && s.doms[d].write.value.before == Major(c)))
  }

  /** Once gray, always gray: first for one domain's step that leaves the heap alone. */
  lemma GrayLocal(s: State, s': State, d: Domain, c: Block)
    requires Gray(s, c) && d in s.doms && d in s'.doms && s'.doms == s.doms[d := s'.doms[d]]
    requires StatusOf(s.h, c) != Unmarked ==> StatusOf(s'.h, c) != Unmarked
    requires Held(s.doms[d], c) ==> Held(s'.doms[d], c) || StatusOf(s'.h, c) != Unmarked
    ensures Gray(s', c)
  {
    if StatusOf(s.h, c) == Unmarked {
      var e :| e in s.doms && Held(s.doms[e], c);
      assert e != d ==> s'.doms[e] == s.doms[e];
    }
  }

  lemma GrayMutator(s: State, st: Step, c: Block)
    requires Enabled(s, st) && Gray(s, c)
    requires st.ReadOld? || st.Store? || st.ContUse? || st.Alloc? || st.Promote?
    ensures Gray(Apply(s, st), c)
  {
    var s' := Apply(s, st);
    if st.ReadOld? || st.Store? {
      GrayLocal(s, s', st.d, c);
    }
  }

  lemma GrayDarken(s: State, st: Step, c: Block)
    requires Enabled(s, st) && Gray(s, c)
    requires st.DarkenSkip? || st.DarkenClaim? || st.MarkClaimed? || st.ContBegin? || st.ContSlot?
    ensures Gray(Apply(s, st), c)
  {
    GrayLocal(s, Apply(s, st), st.d, c);
  }

  lemma GrayMarking(s: State, st: Step, c: Block)
    requires Enabled(s, st) && Gray(s, c)
    requires st.ScanSkip? || st.ScanPush? || st.ScanDarken? || st.RingTake? || st.Finish? || st.FinishCount?
    ensures Gray(Apply(s, st), c)
  {
    if st.RingTake? {
      assert s.doms[st.d].ring == [s.doms[st.d].ring[0]] + s.doms[st.d].ring[1..];
    }
    GrayLocal(s, Apply(s, st), st.d, c);
  }

  lemma GrayDomains(s: State, st: Step, c: Block)
    requires Enabled(s, st) && Gray(s, c) && (st.ContEnd? || st.Spawn? || st.Exit?)
    ensures Gray(Apply(s, st), c)
  {
    var s' := Apply(s, st);
    if StatusOf(s.h, c) == Unmarked {
      var e :| e in s.doms && Held(s.doms[e], c);
      assert e in s'.doms && s'.doms[e] == s.doms[e];
    }
  }

  lemma GrayKept(s: State, st: Step, c: Block)
    requires Enabled(s, st) && Gray(s, c)
    ensures Gray(Apply(s, st), c)
  {
    if st.ReadOld? || st.Store? || st.ContUse? || st.Alloc? || st.Promote? {
      GrayMutator(s, st, c);
    } else if st.DarkenSkip? || st.DarkenClaim? || st.MarkClaimed? || st.ContBegin? || st.ContSlot? {
      GrayDarken(s, st, c);
    } else if st.ContEnd? || st.Spawn? || st.Exit? {
      GrayDomains(s, st, c);
    } else {
      GrayMarking(s, st, c);
    }
  }

  ghost predicate Tracks(dom: Dom, a: Addr) {
    a in dom.pending || a in dom.slots
  }

  /** A step of domain `d` that neither touches the field `a` nor drops it. */
  lemma EdgeFrame(s: State, s': State, d: Domain, a: Addr, c: Block)
    requires !Gray(s, c) && EdgeOk(s, a, c)
    requires d in s.doms && d in s'.doms && s'.doms == s.doms[d := s'.doms[d]]
    requires CellOf(s'.h, a) == CellOf(s.h, a)
    requires StatusOf(s'.h, a.block) == StatusOf(s.h, a.block)
             || StatusOf(s'.h, a.block) == Unmarked || Tracks(s'.doms[d], a)
             || (StatusOf(s'.h, a.block) != Unmarked && StatusOf(s.h, a.block) != Unmarked)
    requires Tracks(s.doms[d], a) ==> Tracks(s'.doms[d], a)
    requires Overwriting(s'.doms[d], a) ==>
               || s'.doms[d].write == s.doms[d].write
               || s'.doms[d].write == Some(Write(a, Major(c), s'.doms[d].write.value.after, false))
    ensures EdgeOk(s', a, c)
  {
    if e :| e in s.doms && (a in s.doms[e].pending || a in s.doms[e].slots) {
      assert e in s'.doms && (a in s'.doms[e].pending || a in s'.doms[e].slots);
    }
  }

  lemma ReadOldEdge(s: State, d: Domain, at: Addr, after: Value, darkenFirst: bool, a: Addr, c: Block)
    requires CanReadOld(s, d, at, after, darkenFirst) && !Gray(s, c) && EdgeOk(s, a, c)
    ensures EdgeOk(ReadOldStep(s, d, at, after, darkenFirst), a, c)
  {
    var s' := ReadOldStep(s, d, at, after, darkenFirst);
    if at == a && darkenFirst {
      assert Held(s'.doms[d], c);
    } else {
      EdgeFrame(s, s', d, a, c);
    }
  }

  /** The deletion barrier: the store that drops the snapshot's pointer darkens it. */
  lemma StoreEdge(s: State, d: Domain, a: Addr, c: Block)
    requires CanStore(s, d) && !Gray(s, c) && EdgeOk(s, a, c)
    ensures EdgeOk(StoreStep(s, d), a, c)
  {
    var s' := StoreStep(s, d);
    if Overwriting(s.doms[d], a) {
      assert Held(s'.doms[d], c);
    } else {
      EdgeFrame(s, s', d, a, c);
    }
  }

  /** A resumed continuation has been darkened to its last slot. */
  lemma ContUseEdge(s: State, b: Block, a: Addr, c: Block)
    requires WellFormed(s) && CanContUse(s, b) && !Gray(s, c) && EdgeOk(s, a, c)
    ensures EdgeOk(ContUseStep(s, b), a, c)
  {
    var s' := ContUseStep(s, b);
    if d :| d in s.doms && (a in s.doms[d].pending || a in s.doms[d].slots) {
      assert DomOk(s.h, d, s.doms[d]);
      assert a.block != b;
      assert d in s'.doms && (a in s'.doms[d].pending || a in s'.doms[d].slots);
    }
  }

  lemma HeapEdge(s: State, st: Step, a: Addr, c: Block)
    requires Enabled(s, st) && !Gray(s, c) && EdgeOk(s, a, c) && a.block in s.h.header
    requires st.Alloc? || st.Promote? || st.Spawn? || st.Exit? || st.ContEnd?
    ensures EdgeOk(Apply(s, st), a, c)
  {
    var s' := Apply(s, st);
    if d :| d in s.doms && (a in s.doms[d].pending || a in s.doms[d].slots) {
      assert d in s'.doms && (a in s'.doms[d].pending || a in s'.doms[d].slots);
    }
  }

  lemma MarkClaimedEdge(s: State, d: Domain, b: Block, a: Addr, c: Block)
    requires CanMarkClaimed(s, d, b) && !Gray(s, c) && EdgeOk(s, a, c)
    requires a in Cells(a.block, ShapeOf(s.h, a.block))
    ensures EdgeOk(MarkClaimedStep(s, d, b), a, c)
  {
    EdgeFrame(s, MarkClaimedStep(s, d, b), d, a, c);
  }

  lemma ContBeginEdge(s: State, d: Domain, b: Block, viaDarken: bool, a: Addr, c: Block)
    requires CanContBegin(s, d, b, viaDarken) && !Gray(s, c) && EdgeOk(s, a, c)
    requires a in Cells(a.block, ShapeOf(s.h, a.block))
    ensures EdgeOk(ContBeginStep(s, d, b, viaDarken), a, c)
  {
    EdgeFrame(s, ContBeginStep(s, d, b, viaDarken), d, a, c);
  }

  /** Scanning a field hands its target over before forgetting the field. */
  lemma ScanEdge(s: State, st: Step, a: Addr, c: Block)
    requires Enabled(s, st) && !Gray(s, c) && EdgeOk(s, a, c)
    requires st.ScanSkip? || st.ScanPush? || st.ScanDarken? || st.ContSlot?
    ensures EdgeOk(Apply(s, st), a, c)
  {
    var s' := Apply(s, st);
    if st.at == a && !st.ScanSkip? {
      assert Held(s'.doms[st.d], c);
    } else {
      EdgeFrame(s, s', st.d, a, c);
    }
  }

  lemma QuietEdge(s: State, st: Step, a: Addr, c: Block)
    requires Enabled(s, st) && !Gray(s, c) && EdgeOk(s, a, c)
    requires st.DarkenSkip? || st.DarkenClaim? || st.RingTake? || st.Finish? || st.FinishCount?
    ensures EdgeOk(Apply(s, st), a, c)
  {
    EdgeFrame(s, Apply(s, st), st.d, a, c);
  }

  lemma MarkingEdge(s: State, st: Step, a: Addr, c: Block)
    requires Enabled(s, st) && !Gray(s, c) && EdgeOk(s, a, c) && a.block in s.h.header
    requires !st.ReadOld? && !st.Store? && !st.ContUse? && !st.MarkClaimed? && !st.ContBegin?
    ensures EdgeOk(Apply(s, st), a, c)
  {
    if st.ScanSkip? || st.ScanPush? || st.ScanDarken? || st.ContSlot? {
      ScanEdge(s, st, a, c);
    } else if st.Alloc? || st.Promote? || st.Spawn? || st.Exit? || st.ContEnd? {
      HeapEdge(s, st, a, c);
    } else {
      QuietEdge(s, st, a, c);
    }
  }

  lemma StepEdge(s: State, st: Step, a: Addr, c: Block)
    requires WellFormed(s) && Enabled(s, st) && EdgeOk(s, a, c)
    requires a in Cells(a.block, ShapeOf(s.h, a.block)) && a.block in s.h.header
    ensures EdgeOk(Apply(s, st), a, c)
  {
    if Gray(s, c) {
      GrayKept(s, st, c);
    } else {
      match st
      case ReadOld(d, at, after, darkenFirst) => ReadOldEdge(s, d, at, after, darkenFirst, a, c);
      case Store(d) => StoreEdge(s, d, a, c);
      case ContUse(b) => ContUseEdge(s, b, a, c);
      case MarkClaimed(d, b) => MarkClaimedEdge(s, d, b, a, c);
      case ContBegin(d, b, viaDarken) => ContBeginEdge(s, d, b, viaDarken, a, c);
      case _ => MarkingEdge(s, st, a, c);
    }
  }

  // -------------------------------------------------- the termination counter

  ghost function Open(s: State): set<Domain> {
    set d | d in s.doms && !s.doms[d].done
  }

  ghost function Leaving(s: State): set<Domain> {
    set d | d in s.doms && s.doms[d].leaving
  }

  /** num_domains_to_mark counts the domains that are still marking. */
  ghost predicate CountOk(s: State) {
    s.toMark == |Open(s)| + |Leaving(s)|
  }

  lemma CountFrame(s: State, s': State)
    requires CountOk(s) && s'.toMark == s.toMark
    requires forall d :: d in s.doms && (!s.doms[d].done || s.doms[d].leaving) ==> d in s'.doms
    requires forall d :: d in s'.doms && (!s'.doms[d].done || s'.doms[d].leaving) ==> d in s.doms
    requires forall d :: d in s.doms && d in s'.doms ==>
               s'.doms[d].done == s.doms[d].done && s'.doms[d].leaving == s.doms[d].leaving
    ensures CountOk(s')
  {
    assert Open(s') == Open(s);
    assert Leaving(s') == Leaving(s);
  }

  lemma CountReopen(s: State, d: Domain)
    requires CountOk(s) && d in s.doms
    ensures CountOk(Reopen(s, d))
  {
    var s' := Reopen(s, d);
    assert Leaving(s') == Leaving(s);
    if s.doms[d].done {
      assert Open(s') == Open(s) + {d};
    }
  }

  lemma CountFinish(s: State, d: Domain)
    requires CountOk(s) && CanFinish(s, d)
    ensures CountOk(FinishStep(s, d))
  {
    var s' := FinishStep(s, d);
    assert Open(s) == Open(s') + {d};
    assert Leaving(s') == Leaving(s) + {d};
  }

  lemma CountFinishCount(s: State, d: Domain)
    requires CountOk(s) && CanFinishCount(s, d)
    ensures CountOk(FinishCountStep(s, d))
  {
    var s' := FinishCountStep(s, d);
    assert Open(s') == Open(s);
    assert Leaving(s) == Leaving(s') + {d};
  }

  /** A step that opens its domain again, if it is closed, before it does its work. */
  lemma CountDarken(s: State, st: Step)
    requires CountOk(s) && Enabled(s, st) && (st.DarkenClaim? || st.ContBegin?)
    ensures CountOk(Apply(s, st))
  {
    CountReopen(s, st.d);
    CountFrame(if st.DarkenClaim? || st.viaDarken then Reopen(s, st.d) else s, Apply(s, st));
  }

  lemma CountMutator(s: State, st: Step)
    requires CountOk(s) && Enabled(s, st)
    requires || st.ReadOld? || st.Store? || st.ContUse? || st.Alloc? || st.Promote?
             || st.Spawn? || st.Exit? || st.ContEnd?
    ensures CountOk(Apply(s, st))
  {
    CountFrame(s, Apply(s, st));
  }

  lemma CountDom(s: State, h: Heap, d: Domain, dom: Dom)
    requires CountOk(s) && d in s.doms && dom.done == s.doms[d].done && dom.leaving == s.doms[d].leaving
    ensures CountOk(SetDom(s.(h := h), d, dom))
  {
    CountFrame(s, SetDom(s.(h := h), d, dom));
  }

  lemma CountMarking(s: State, st: Step)
    requires CountOk(s) && Enabled(s, st)
    requires || st.ContSlot? || st.ScanSkip? || st.ScanPush? || st.ScanDarken?
             || st.DarkenSkip? || st.MarkClaimed? || st.RingTake?
    ensures CountOk(Apply(s, st))
  {
    var s' := Apply(s, st);
    CountDom(s, s'.h, st.d, s'.doms[st.d]);
  }

  lemma StepCount(s: State, st: Step)
    requires CountOk(s) && Enabled(s, st)
    ensures CountOk(Apply(s, st))
  {
    if st.Finish? {
      CountFinish(s, st.d);
    } else if st.FinishCount? {
      CountFinishCount(s, st.d);
    } else if st.DarkenClaim? || st.ContBegin? {
      CountDarken(s, st);
    } else if || st.ReadOld? || st.Store? || st.ContUse? || st.Alloc? || st.Promote?
              || st.Spawn? || st.Exit? || st.ContEnd? {
      CountMutator(s, st);
    } else {
      CountMarking(s, st);
    }
  }

  // ------------------------------------------------------------ whole runs

  /** A pointer of the snapshot: field `a` of a scanned block points to `c`. */
  ghost predicate Edge(snap: Heap, a: Addr, c: Block) {
    a.block in snap.header && a in Cells(a.block, ShapeOf(snap, a.block)) && CellOf(snap, a) == Major(c)
  }

  ghost predicate Linked(snap: Heap, b: Block, c: Block) {
    exists a :: Edge(snap, a, c) && a.block == b
  }

  /** `path` leads from a root to its last block along pointers of the snapshot. */
  ghost predicate IsPath(snap: Heap, roots: set<Block>, path: seq<Block>) {
    && path != [] && path[0] in roots
    && (forall k :: 0 < k < |path| ==> Linked(snap, path[k - 1], path[k]))
  }

  ghost predicate Reachable(snap: Heap, roots: set<Block>, b: Block) {
    exists path :: IsPath(snap, roots, path) && path[|path| - 1] == b
  }

  /** The start of a cycle: every block unmarked, every domain marking with an empty
      mark stack, and the roots shared out as arguments of caml_darken. */
  ghost predicate Init(s: State, roots: set<Block>) {
    && (forall b :: b in s.h.header ==> s.h.header[b].status == Unmarked)
    && (forall d :: d in s.doms ==> s.doms[d] == FRESH_DOM.(done := false, inflight := s.doms[d].inflight))
    && (forall r :: r in roots ==> exists d :: d in s.doms && r in s.doms[d].inflight)
    && s.toMark == |s.doms.Keys|
  }

  ghost predicate SnapshotInv(snap: Heap, roots: set<Block>, s: State) {
    && WellFormed(s) && CountOk(s) && SameShapes(snap, s.h)
    && (forall r :: r in roots ==> Gray(s, r))
    && (forall a, c :: Edge(snap, a, c) ==> EdgeOk(s, a, c))
  }

  /** Every domain is outside the write barrier, caml_darken and caml_darken_cont. */
  ghost predicate AtSafepoint(s: State) {
    && (forall d :: d in s.doms ==>
          s.doms[d].inflight == {} && s.doms[d].claimed == {} && s.doms[d].slots == {} && s.doms[d].write.None?)
    && (forall b :: !StatusOf(s.h, b).NotMarkable?)
  }

  lemma InitInv(s: State, roots: set<Block>)
    requires Init(s, roots)
    ensures SnapshotInv(s.h, roots, s)
  {
    assert Open(s) == s.doms.Keys;
    assert Leaving(s) == {};
    forall r | r in roots ensures Gray(s, r) {
      var d :| d in s.doms && r in s.doms[d].inflight;
      assert Held(s.doms[d], r);
    }
  }

  lemma StepInv(snap: Heap, roots: set<Block>, s: State, st: Step)
    requires SnapshotInv(snap, roots, s) && Enabled(s, st)
    ensures SnapshotInv(snap, roots, Apply(s, st))
  {
    var s' := Apply(s, st);
    StepWellFormed(s, st);
    StepCount(s, st);
    StepShapes(snap, s, st);
    forall r | r in roots ensures Gray(s', r) {
      GrayKept(s, st, r);
    }
    forall a, c | Edge(snap, a, c) ensures EdgeOk(s', a, c) {
      StepEdge(s, st, a, c);
    }
  }

  lemma StepShapes(snap: Heap, s: State, st: Step)
    requires SameShapes(snap, s.h) && Enabled(s, st)
    ensures SameShapes(snap, Apply(s, st).h)
  {
  }

  lemma {:induction false} RunInv(snap: Heap, roots: set<Block>, s: State, steps: seq<Step>, s': State)
    requires SnapshotInv(snap, roots, s) && Reaches(s, steps, s')
    ensures SnapshotInv(snap, roots, s')
    decreases |steps|
  {
    if steps != [] {
      StepInv(snap, roots, s, steps[0]);
      RunInv(snap, roots, Apply(s, steps[0]), steps[1..], s');
    }
  }

  /** With no domain marking and none in the middle of a barrier, nothing is pending. */
  lemma Quiescent(s: State)
    requires WellFormed(s) && CountOk(s) && AtSafepoint(s) && s.toMark == 0
    ensures forall d, b :: d in s.doms ==> !Held(s.doms[d], b)
    ensures forall d, a :: d in s.doms ==> !Tracks(s.doms[d], a)
  {
    assert Open(s) == {};
    forall d | d in s.doms
      ensures s.doms[d].ring == [] && s.doms[d].pending == multiset{}
    {
      assert d !in Open(s);
      assert DomOk(s.h, d, s.doms[d]);
    }
  }

  lemma QuiescentEdge(s: State, a: Addr, c: Block)
    requires WellFormed(s) && CountOk(s) && AtSafepoint(s) && s.toMark == 0
    requires EdgeOk(s, a, c) && StatusOf(s.h, a.block) == Marked
    ensures StatusOf(s.h, c) == Marked
  {
    Quiescent(s);
    assert PendingAt(s, a) ==> exists d :: d in s.doms && Tracks(s.doms[d], a);
  }

  /** The marked blocks contain the roots and are closed under the snapshot's pointers. */
  lemma QuiescentClosed(snap: Heap, roots: set<Block>, s: State)
    requires SnapshotInv(snap, roots, s) && AtSafepoint(s) && s.toMark == 0
    ensures forall r :: r in roots ==> StatusOf(s.h, r) == Marked
    ensures forall a, c :: Edge(snap, a, c) && StatusOf(s.h, a.block) == Marked ==> StatusOf(s.h, c) == Marked
  {
    Quiescent(s);
    forall r | r in roots ensures StatusOf(s.h, r) == Marked {
      assert Gray(s, r);
    }
    forall a, c | Edge(snap, a, c) && StatusOf(s.h, a.block) == Marked ensures StatusOf(s.h, c) == Marked {
      QuiescentEdge(s, a, c);
    }
  }

  lemma {:induction false} PathMarked(snap: Heap, roots: set<Block>, h: Heap, path: seq<Block>)
    requires forall r :: r in roots ==> StatusOf(h, r) == Marked
    requires forall a, c :: Edge(snap, a, c) && StatusOf(h, a.block) == Marked ==> StatusOf(h, c) == Marked
    requires IsPath(snap, roots, path)
    ensures StatusOf(h, path[|path| - 1]) == Marked
    decreases |path|
  {
    if |path| > 1 {
      var prefix := path[..|path| - 1];
      assert forall k :: 0 <= k < |prefix| ==> prefix[k] == path[k];
      PathMarked(snap, roots, h, prefix);
      assert Linked(snap, prefix[|prefix| - 1], path[|path| - 1]);
    }
  }

  /** Snapshot marking: whatever the interleaving, once num_domains_to_mark is 0 and
      every domain is at a safepoint, each block reachable in the heap in which the
      cycle started is marked. */
  lemma SnapshotMarked(s: State, roots: set<Block>, steps: seq<Step>, s': State, b: Block)
    requires Init(s, roots) && Reaches(s, steps, s')
    requires AtSafepoint(s') && s'.toMark == 0
    requires Reachable(s.h, roots, b)
    ensures StatusOf(s'.h, b) == Marked
  {
    InitInv(s, roots);
    RunInv(s.h, roots, s, steps, s');
    QuiescentClosed(s.h, roots, s');
    var path :| IsPath(s.h, roots, path) && path[|path| - 1] == b;
    PathMarked(s.h, roots, s'.h, path);
  }
}
