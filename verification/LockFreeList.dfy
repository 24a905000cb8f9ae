/**
  The bottom level of the lock-free skip list (`runtime/lf_skiplist.c`): a linked
  list in key order whose links carry a deletion mark, changed only by single
  compare-and-swap steps of any number of threads, and the garbage list onto which
  removed cells are pushed once each.

  The upper levels are shortcuts: a search, and each retry of it, enters the bottom level
  at any cell that was inserted before and has a smaller key. A cell seen unmarked on an
  upper level is not marked on the bottom level, which is marked last, at that moment. The
  upper levels matter in one more way: a cell whose removal has begun may be unlinked from
  one of them, and offered to the garbage list, before its bottom link is marked.
 */
module LockFreeList {

  import opened Common

  type Node = nat
  type Thread = nat

  const UINTNAT_MAX := 0xFFFF_FFFF_FFFF_FFFF
  const HEAD: Node := 0
  const TAIL: Node := 1

  /** A forward[0] word: the successor, and LF_SK_MARKED. */
  datatype Link = Link(succ: Node, marked: bool)

  /** garbage_next: NULL, the claim value 1, or a pointer. */
  datatype GarbageLink = Free | Claimed | Next(node: Node)

  /** `linked` holds every cell ever inserted, `removed` one entry for each removal
      that returned 1; no step reads either. */
  datatype Mem = Mem(
    key: map<Node, nat>,
    next: map<Node, Link>,
    linked: set<Node>,
    removed: multiset<Node>)

  datatype Garbage = Garbage(next: map<Node, GarbageLink>, head: Node)

  /** The local state of one operation on key `k`. */
  datatype Local =
    | Idle
    | Search(k: nat, pred: Node)                          // about to load pred's link
    | Look(k: nat, pred: Node, curr: Node)                // about to load curr's link
    | Snip(k: nat, pred: Node, curr: Node, succ: Node)    // curr seen marked
    | Collect(k: nat, pred: Node, curr: Node)             // curr unlinked: claim its garbage_next
    | Push(k: nat, pred: Node, curr: Node)                // claimed: load garbage_head
    | Swing(k: nat, pred: Node, curr: Node, h: Node)      // garbage_next stored: swing garbage_head
    | Found(k: nat, pred: Node, curr: Node)               // skiplist_find returned
    | Linking(k: nat, pred: Node, curr: Node, cell: Node) // insert: new cell built
    | Marking(k: nat, curr: Node, succ: Node)             // remove: link of curr loaded

  datatype State = State(m: Mem, g: Garbage, doomed: set<Node>, threads: map<Thread, Local>)

  function NextOf(m: Mem, n: Node): Link {
    if n in m.next then m.next[n] else Link(TAIL, false)
  }

  function KeyOf(m: Mem, n: Node): nat {
    if n in m.key then m.key[n] else 0
  }

  predicate Unmarked(m: Mem, n: Node) {
    n in m.linked && !NextOf(m, n).marked
  }

  function LocalOf(s: State, t: Thread): Local {
    if t in s.threads then s.threads[t] else Idle
  }

  function GarbageOf(g: Garbage, n: Node): GarbageLink {
    if n in g.next then g.next[n] else Free
  }

  function SetLink(m: Mem, n: Node, l: Link): Mem {
    m.(next := m.next[n := l])
  }

  function SetLocal(s: State, t: Thread, l: Local): State {
    s.(threads := s.threads[t := l])
  }

  // ------------------------------------------------------------------ steps

  datatype Step =
    | Begin(t: Thread, k: nat)
    | Enter(t: Thread, start: Node)  // down to the bottom level, at `start`
    | LoadCurr(t: Thread)
    | LoadNext(t: Thread)
    | SnipCas(t: Thread)
    | UpperSnip(t: Thread, n: Node)
    | Claim(t: Thread)
    | LoadGarbage(t: Thread)
    | SwingCas(t: Thread)
    | Update(t: Thread)              // insert found the key; or remove did not
    | Build(t: Thread, cell: Node)
    | LinkCas(t: Thread)
    | LoadTarget(t: Thread)
    | MarkCas(t: Thread)
    | Doom(n: Node)                  // remove marks an upper level link

  predicate Enabled(s: State, st: Step) {
    match st
    case Begin(t, k) => LocalOf(s, t).Idle? && 0 < k < UINTNAT_MAX
    case Enter(t, start) =>
      && LocalOf(s, t).Search? && LocalOf(s, t).pred == HEAD
      && Unmarked(s.m, start) && KeyOf(s.m, start) < LocalOf(s, t).k
    case LoadCurr(t) => LocalOf(s, t).Search?
    case LoadNext(t) => LocalOf(s, t).Look?
    case SnipCas(t) => LocalOf(s, t).Snip?
    case UpperSnip(t, n) => LocalOf(s, t).Search? && n in s.doomed
    case Claim(t) => LocalOf(s, t).Collect?
    case LoadGarbage(t) => LocalOf(s, t).Push?
    case SwingCas(t) => LocalOf(s, t).Swing?
    case Update(t) => LocalOf(s, t).Found?
    case Build(t, cell) =>
      LocalOf(s, t).Found? && KeyOf(s.m, LocalOf(s, t).curr) != LocalOf(s, t).k && cell !in s.m.key
    case LinkCas(t) => LocalOf(s, t).Linking?
    case LoadTarget(t) => LocalOf(s, t).Found? && KeyOf(s.m, LocalOf(s, t).curr) == LocalOf(s, t).k
    case MarkCas(t) => LocalOf(s, t).Marking?
    case Doom(n) => n in s.m.linked && n != HEAD && n != TAIL
  }

  function Apply(s: State, st: Step): State
    requires Enabled(s, st)
  {
    match st
    case Begin(t, k) => SetLocal(s, t, Search(k, HEAD))
    case Enter(t, start) => SetLocal(s, t, Search(LocalOf(s, t).k, start))
    case LoadCurr(t) =>
      var l := LocalOf(s, t);
      SetLocal(s, t, Look(l.k, l.pred, NextOf(s.m, l.pred).succ))
    case LoadNext(t) =>
      var l := LocalOf(s, t);
      var next := NextOf(s.m, l.curr);
      SetLocal(s, t,
        if next.marked then Snip(l.k, l.pred, l.curr, next.succ)
        else if KeyOf(s.m, l.curr) < l.k then Look(l.k, l.curr, next.succ)
        else Found(l.k, l.pred, l.curr))
    case SnipCas(t) =>
      var l := LocalOf(s, t);
      if NextOf(s.m, l.pred) == Link(l.curr, false) then
        SetLocal(s.(m := SetLink(s.m, l.pred, Link(l.succ, false))), t, Collect(l.k, l.pred, l.curr))
      else SetLocal(s, t, Search(l.k, HEAD))
    case UpperSnip(t, n) =>
      var l := LocalOf(s, t);
      SetLocal(s, t, Collect(l.k, l.pred, n))
    case Claim(t) =>
      var l := LocalOf(s, t);
      if GarbageOf(s.g, l.curr) == Free then
        SetLocal(s.(g := s.g.(next := s.g.next[l.curr := Claimed])), t, Push(l.k, l.pred, l.curr))
      else SetLocal(s, t, Search(l.k, l.pred))
    case LoadGarbage(t) =>
      var l := LocalOf(s, t);
      SetLocal(s.(g := s.g.(next := s.g.next[l.curr := Next(s.g.head)])), t, Swing(l.k, l.pred, l.curr, s.g.head))
    case SwingCas(t) =>
      var l := LocalOf(s, t);
      if s.g.head == l.h then SetLocal(s.(g := s.g.(head := l.curr)), t, Search(l.k, l.pred))
      else SetLocal(s, t, Push(l.k, l.pred, l.curr))
    case Update(t) => SetLocal(s, t, Idle)
    case Build(t, cell) =>
      var l := LocalOf(s, t);
      SetLocal(s.(m := s.m.(key := s.m.key[cell := l.k], next := s.m.next[cell := Link(l.curr, false)])), t,
               Linking(l.k, l.pred, l.curr, cell))
    case LinkCas(t) =>
      var l := LocalOf(s, t);
      if NextOf(s.m, l.pred) == Link(l.curr, false) then
        SetLocal(s.(m := SetLink(s.m, l.pred, Link(l.cell, false)).(linked := s.m.linked + {l.cell})), t, Idle)
      else SetLocal(s, t, Search(l.k, HEAD))
    case LoadTarget(t) =>
      var l := LocalOf(s, t);
      SetLocal(s, t, Marking(l.k, l.curr, NextOf(s.m, l.curr).succ))
    case MarkCas(t) =>
      var l := LocalOf(s, t);
      if NextOf(s.m, l.curr) == Link(l.succ, false) then
        SetLocal(s.(m := SetLink(s.m, l.curr, Link(l.succ, true)).(removed := s.m.removed + multiset{l.curr})), t,
                 Search(l.k, HEAD))
      else if NextOf(s.m, l.curr).marked then SetLocal(s, t, Idle)
      else SetLocal(s, t, Marking(l.k, l.curr, NextOf(s.m, l.curr).succ))
    case Doom(n) => s.(doomed := s.doomed + {n})
  }

  ghost predicate Reaches(s: State, steps: seq<Step>, s': State)
    decreases |steps|
  {
    if steps == [] then s == s'
    else Enabled(s, steps[0]) && Reaches(Apply(s, steps[0]), steps[1..], s')
  }

  /** caml_lf_skiplist_init. */
  function InitState(): State {
    State(Mem(map[HEAD := 0, TAIL := UINTNAT_MAX], map[HEAD := Link(TAIL, false)], {HEAD, TAIL}, multiset{}),
          Garbage(map[], HEAD), {}, map[])
  }

  // ----------------------------------------------- invariant of the links

  ghost predicate LinksOk(m: Mem) {
    && HEAD in m.linked && TAIL in m.linked && m.linked <= m.key.Keys
    && KeyOf(m, HEAD) == 0 && KeyOf(m, TAIL) == UINTNAT_MAX && !NextOf(m, HEAD).marked && TAIL !in m.next
    && (forall n {:trigger NextOf(m, n)} :: n in m.linked && n != TAIL ==>
          n in m.next && NextOf(m, n).succ in m.linked && KeyOf(m, n) < KeyOf(m, NextOf(m, n).succ))
  }

  /** One removal has succeeded on each marked cell, none on the others. */
  ghost predicate RemovedOk(m: Mem) {
    forall n :: m.removed[n] == if n in m.linked && NextOf(m, n).marked then 1 else 0
  }

  /** `order` is the chain from the head: it ends at the tail and contains every
      inserted cell that is not marked. */
  ghost predicate ChainOk(m: Mem, order: seq<Node>) {
    && |order| >= 2 && order[0] == HEAD && order[|order| - 1] == TAIL
    && (forall i :: 0 <= i < |order| ==> order[i] in m.linked)
    && (forall i :: 0 <= i < |order| - 1 ==> order[i] != TAIL && NextOf(m, order[i]).succ == order[i + 1])
    && (forall n {:trigger NextOf(m, n)} :: n in m.linked && !NextOf(m, n).marked ==> n in order)
  }

  ghost predicate LocalOk(m: Mem, l: Local) {
    && (l.Idle? || 0 < l.k < UINTNAT_MAX)
    && (l.Idle? || l.Marking? || (l.pred in m.linked && KeyOf(m, l.pred) < l.k))
    && (l.Idle? || l.Search? || l.curr in m.linked)
    && match l {
         case Idle => true
         case Search(k, pred) => true
         case Look(k, pred, curr) => KeyOf(m, pred) < KeyOf(m, curr)
         case Snip(k, pred, curr, succ) => NextOf(m, curr) == Link(succ, true) && curr != TAIL && curr != HEAD
         case Collect(k, pred, curr) => curr != HEAD
         case Push(k, pred, curr) => curr != HEAD
         case Swing(k, pred, curr, h) => curr != HEAD
         case Found(k, pred, curr) => KeyOf(m, curr) >= k
         case Linking(k, pred, curr, cell) =>
           && cell !in m.linked && cell in m.key && KeyOf(m, cell) == k && KeyOf(m, curr) > k
           && NextOf(m, cell) == Link(curr, false) && cell in m.next
         case Marking(k, curr, succ) => KeyOf(m, curr) == k
       }
  }

  ghost predicate PrivateOk(s: State) {
    forall t, u :: t != u && LocalOf(s, t).Linking? && LocalOf(s, u).Linking? ==>
      LocalOf(s, t).cell != LocalOf(s, u).cell
  }

  ghost predicate Inv(s: State, order: seq<Node>) {
    && LinksOk(s.m) && RemovedOk(s.m) && ChainOk(s.m, order) && PrivateOk(s)
    && (forall t :: LocalOk(s.m, LocalOf(s, t)))
    && s.doomed <= s.m.linked - {HEAD}
  }

  /** What every step preserves of the memory: cells stay, keys are fixed, a marked
      cell's link is frozen, and nobody touches a cell that is not linked yet. */
  ghost predicate Extends(m: Mem, m': Mem) {
    && m.linked <= m'.linked
    && (forall n :: n in m.key ==> n in m'.key && KeyOf(m', n) == KeyOf(m, n))
    && (forall n :: n in m.linked && NextOf(m, n).marked ==> NextOf(m', n) == NextOf(m, n))
    && (forall n :: n in m.key && n !in m.linked ==> NextOf(m', n) == NextOf(m, n) && (n in m.next ==> n in m'.next))
  }

  lemma LocalKept(m: Mem, m': Mem, l: Local)
    requires LocalOk(m, l) && m.linked <= m.key.Keys && Extends(m, m')
    requires l.Linking? ==> l.cell !in m'.linked
    ensures LocalOk(m', l)
  {
  }

  /** Along the chain keys strictly increase. */
  lemma {:induction false} ChainIncreasing(m: Mem, order: seq<Node>, i: nat, j: nat)
    requires LinksOk(m) && ChainOk(m, order) && i < j < |order|
    ensures KeyOf(m, order[i]) < KeyOf(m, order[j])
  {
    if i + 1 < j {
      ChainIncreasing(m, order, i, j - 1);
    }
    assert NextOf(m, order[j - 1]).succ == order[j];
  }

  lemma ChainDistinct(m: Mem, order: seq<Node>)
    requires LinksOk(m) && ChainOk(m, order)
    ensures Distinct(order)
  {
    forall i, j | 0 <= i < j < |order| ensures order[i] != order[j] {
      ChainIncreasing(m, order, i, j);
    }
  }

  /** An unmarked predecessor is on the chain, its successor right behind it. */
  lemma FindPred(m: Mem, order: seq<Node>, pred: Node) returns (i: nat)
    requires ChainOk(m, order) && pred in m.linked && !NextOf(m, pred).marked && pred != TAIL
    ensures i < |order| - 1 && order[i] == pred && order[i + 1] == NextOf(m, pred).succ
  {
    i :| 0 <= i < |order| && order[i] == pred;
  }

  /** One cell less, or one more, in the chain. */
  lemma SpliceOut(order: seq<Node>, i: nat) returns (order': seq<Node>)
    requires i < |order|
    ensures |order'| == |order| - 1
    ensures forall j :: 0 <= j < i ==> order'[j] == order[j]
    ensures forall j :: i <= j < |order'| ==> order'[j] == order[j + 1]
    ensures forall n :: n in order && n !in order' ==> n == order[i]
  {
    order' := order[..i] + order[i + 1..];
    assert order == order[..i] + [order[i]] + order[i + 1..];
  }

  lemma SpliceIn(order: seq<Node>, i: nat, cell: Node) returns (order': seq<Node>)
    requires i <= |order|
    ensures |order'| == |order| + 1 && order'[i] == cell
    ensures forall j :: 0 <= j < i ==> order'[j] == order[j]
    ensures forall j :: i < j < |order'| ==> order'[j] == order[j - 1]
    ensures forall n :: n in order ==> n in order'
  {
    order' := order[..i] + [cell] + order[i..];
    assert order == order[..i] + order[i..];
  }

  lemma SnipChain(m: Mem, order: seq<Node>, pred: Node, curr: Node, succ: Node) returns (order': seq<Node>)
    requires ChainOk(m, order) && Distinct(order) && pred in m.linked && pred != TAIL
    requires NextOf(m, pred) == Link(curr, false) && NextOf(m, curr) == Link(succ, true) && curr != TAIL
    ensures ChainOk(SetLink(m, pred, Link(succ, false)), order')
    ensures forall n :: n in order && n !in order' ==> n == curr
  {
    var m' := SetLink(m, pred, Link(succ, false));
    var i := FindPred(m, order, pred);
    assert order[i + 1] == curr && i + 2 < |order| && order[i + 2] == succ;
    order' := SpliceOut(order, i + 1);
    forall j | 0 <= j < |order'| - 1 ensures order'[j] != TAIL && NextOf(m', order'[j]).succ == order'[j + 1] {
      if j < i {
        assert order[j] != pred && NextOf(m, order[j]).succ == order[j + 1];
      } else if j > i {
        assert order[j + 1] != pred && NextOf(m, order[j + 1]).succ == order[j + 2];
      }
    }
    forall n | n in m'.linked && !NextOf(m', n).marked ensures n in order' {
      assert n != pred ==> NextOf(m, n) == NextOf(m', n);
      assert n in order && n != order[i + 1];
    }
  }

  lemma SnipLinks(m: Mem, pred: Node, curr: Node, succ: Node)
    requires LinksOk(m) && RemovedOk(m) && pred in m.linked && pred != TAIL
    requires NextOf(m, pred) == Link(curr, false) && NextOf(m, curr) == Link(succ, true) && curr != TAIL
    ensures var m' := SetLink(m, pred, Link(succ, false)); LinksOk(m') && RemovedOk(m') && Extends(m, m')
  {
    var m' := SetLink(m, pred, Link(succ, false));
    assert forall n :: n != pred ==> NextOf(m', n) == NextOf(m, n);
  }

  lemma LinkChain(m: Mem, order: seq<Node>, pred: Node, curr: Node, cell: Node) returns (order': seq<Node>)
    requires ChainOk(m, order) && Distinct(order) && pred in m.linked && pred != TAIL
    requires NextOf(m, pred) == Link(curr, false) && NextOf(m, cell) == Link(curr, false)
    requires cell !in m.linked && cell != TAIL
    ensures ChainOk(SetLink(m, pred, Link(cell, false)).(linked := m.linked + {cell}), order')
    ensures forall n :: n in order ==> n in order'
  {
    var m' := SetLink(m, pred, Link(cell, false)).(linked := m.linked + {cell});
    var i := FindPred(m, order, pred);
    order' := SpliceIn(order, i + 1, cell);
    forall j | 0 <= j < |order'| - 1 ensures order'[j] != TAIL && NextOf(m', order'[j]).succ == order'[j + 1] {
      if j < i {
        assert order[j] != pred && NextOf(m, order[j]).succ == order[j + 1];
      } else if j > i + 1 {
        assert order[j - 1] != pred && NextOf(m, order[j - 1]).succ == order[j];
      }
    }
    forall n | n in m'.linked && !NextOf(m', n).marked ensures n in order' {
      assert n != pred ==> NextOf(m, n) == NextOf(m', n);
      if n == cell {
        assert order'[i + 1] == cell;
      } else {
        assert n in order;
      }
    }
  }

  lemma LinkLinks(m: Mem, pred: Node, curr: Node, cell: Node)
    requires LinksOk(m) && pred in m.linked && pred != TAIL
    requires NextOf(m, pred) == Link(curr, false) && NextOf(m, cell) == Link(curr, false) && cell in m.next
    requires cell in m.key && cell !in m.linked && KeyOf(m, pred) < KeyOf(m, cell) < KeyOf(m, curr)
    ensures LinksOk(SetLink(m, pred, Link(cell, false)).(linked := m.linked + {cell}))
  {
    var m' := SetLink(m, pred, Link(cell, false)).(linked := m.linked + {cell});
    assert curr in m.linked;
    assert forall n :: KeyOf(m', n) == KeyOf(m, n);
    forall n | n in m'.linked && n != TAIL
      ensures n in m'.next && NextOf(m', n).succ in m'.linked && KeyOf(m', n) < KeyOf(m', NextOf(m', n).succ)
    {
      if n != pred {
        assert NextOf(m', n) == NextOf(m, n);
      }
    }
  }

  lemma LinkExtends(m: Mem, pred: Node, cell: Node)
    requires RemovedOk(m) && pred in m.linked && cell !in m.linked
    requires !NextOf(m, pred).marked && !NextOf(m, cell).marked
    ensures var m' := SetLink(m, pred, Link(cell, false)).(linked := m.linked + {cell});
      RemovedOk(m') && Extends(m, m')
  {
    var m' := SetLink(m, pred, Link(cell, false)).(linked := m.linked + {cell});
    assert forall n :: n != pred ==> NextOf(m', n) == NextOf(m, n);
  }

  lemma MarkLinks(m: Mem, curr: Node, succ: Node)
    requires LinksOk(m) && RemovedOk(m) && curr in m.linked && curr != TAIL && curr != HEAD
    requires NextOf(m, curr) == Link(succ, false)
    ensures var m' := SetLink(m, curr, Link(succ, true)).(removed := m.removed + multiset{curr});
      LinksOk(m') && RemovedOk(m') && Extends(m, m')
  {
    var m' := SetLink(m, curr, Link(succ, true)).(removed := m.removed + multiset{curr});
    assert forall n :: n != curr ==> NextOf(m', n) == NextOf(m, n);
  }

  lemma MarkChain(m: Mem, order: seq<Node>, curr: Node, succ: Node)
    requires ChainOk(m, order) && NextOf(m, curr) == Link(succ, false)
    ensures ChainOk(SetLink(m, curr, Link(succ, true)).(removed := m.removed + multiset{curr}), order)
  {
    var m' := SetLink(m, curr, Link(succ, true)).(removed := m.removed + multiset{curr});
    assert forall n :: n != curr ==> NextOf(m', n) == NextOf(m, n);
  }

  lemma BuildLinks(m: Mem, order: seq<Node>, cell: Node, k: nat, curr: Node)
    requires LinksOk(m) && RemovedOk(m) && ChainOk(m, order) && cell !in m.key
    ensures var m' := m.(key := m.key[cell := k], next := m.next[cell := Link(curr, false)]);
      LinksOk(m') && RemovedOk(m') && ChainOk(m', order) && Extends(m, m')
  {
    var m' := m.(key := m.key[cell := k], next := m.next[cell := Link(curr, false)]);
    assert forall n :: n != cell ==> NextOf(m', n) == NextOf(m, n) && KeyOf(m', n) == KeyOf(m, n);
  }

  /** The only cell a step can link is the private cell of its thread. */
  ghost predicate LinksOnly(s: State, s': State, st: Step) {
    s'.m.linked <= s.m.linked
    || (st.LinkCas? && LocalOf(s, st.t).Linking? && s'.m.linked <= s.m.linked + {LocalOf(s, st.t).cell})
  }

  /** A thread that has a cell on its way to the garbage list. */
  predicate Holds(l: Local, n: Node) {
    (l.Collect? || l.Push? || l.Swing?) && l.curr == n
  }

  /** Who takes a cell off the chain has it to collect. */
  ghost predicate TakesOff(s': State, st: Step, order: seq<Node>, order': seq<Node>) {
    forall n :: n in order && n !in order' ==> !st.Doom? && Holds(LocalOf(s', st.t), n)
  }

  lemma MemStep(s: State, order: seq<Node>, st: Step) returns (order': seq<Node>)
    requires Inv(s, order) && Enabled(s, st)
    ensures var s' := Apply(s, st);
      && LinksOk(s'.m) && RemovedOk(s'.m) && ChainOk(s'.m, order') && Extends(s.m, s'.m)
      && LinksOnly(s, s', st) && TakesOff(s', st, order, order')
  {
    order' := order;
    if st.SnipCas? || st.Build? || st.LinkCas? || st.MarkCas? {
      var l := LocalOf(s, st.t);
      assert LocalOk(s.m, l);
      ChainDistinct(s.m, order);
      if st.SnipCas? && NextOf(s.m, l.pred) == Link(l.curr, false) {
        order' := SnipChain(s.m, order, l.pred, l.curr, l.succ);
        SnipLinks(s.m, l.pred, l.curr, l.succ);
      } else if st.Build? {
        BuildLinks(s.m, order, st.cell, l.k, l.curr);
      } else if st.LinkCas? && NextOf(s.m, l.pred) == Link(l.curr, false) {
        order' := LinkChain(s.m, order, l.pred, l.curr, l.cell);
        LinkLinks(s.m, l.pred, l.curr, l.cell);
        LinkExtends(s.m, l.pred, l.cell);
      } else if st.MarkCas? && NextOf(s.m, l.curr) == Link(l.succ, false) {
        MarkChain(s.m, order, l.curr, l.succ);
        MarkLinks(s.m, l.curr, l.succ);
      }
    }
  }

  lemma OwnLoad(s: State, st: Step)
    requires LinksOk(s.m) && Enabled(s, st) && (st.LoadCurr? || st.LoadNext? || st.LoadTarget? || st.LoadGarbage?)
    requires LocalOk(s.m, LocalOf(s, st.t))
    ensures LocalOk(s.m, LocalOf(Apply(s, st), st.t))
  {
    var l := LocalOf(s, st.t);
    if st.LoadNext? && !NextOf(s.m, l.curr).marked && KeyOf(s.m, l.curr) < l.k {
      assert l.curr != TAIL;
    } else if st.LoadCurr? {
      assert NextOf(s.m, l.pred).succ in s.m.linked;
    }
  }

  lemma OwnStart(s: State, st: Step)
    requires st.Begin? || st.Enter? || st.UpperSnip? || st.Claim? || st.SwingCas? || st.Update?
    requires LinksOk(s.m) && Enabled(s, st) && LocalOk(s.m, LocalOf(s, st.t)) && s.doomed <= s.m.linked - {HEAD}
    ensures LocalOk(Apply(s, st).m, LocalOf(Apply(s, st), st.t))
  {
  }

  lemma OwnCas(s: State, st: Step)
    requires st.SnipCas? || st.Build? || st.LinkCas? || st.MarkCas?
    requires LinksOk(s.m) && Enabled(s, st) && LocalOk(s.m, LocalOf(s, st.t))
    requires LinksOk(Apply(s, st).m) && Extends(s.m, Apply(s, st).m)
    ensures LocalOk(Apply(s, st).m, LocalOf(Apply(s, st), st.t))
  {
  }

  /** The stepping thread's own registers. */
  lemma OwnLocal(s: State, st: Step)
    requires LinksOk(s.m) && Enabled(s, st) && !st.Doom? && LocalOk(s.m, LocalOf(s, st.t))
    requires LinksOk(Apply(s, st).m) && Extends(s.m, Apply(s, st).m) && s.doomed <= s.m.linked - {HEAD}
    ensures LocalOk(Apply(s, st).m, LocalOf(Apply(s, st), st.t))
  {
    if st.LoadCurr? || st.LoadNext? || st.LoadTarget? || st.LoadGarbage? {
      OwnLoad(s, st);
    } else if st.SnipCas? || st.Build? || st.LinkCas? || st.MarkCas? {
      OwnCas(s, st);
    } else {
      OwnStart(s, st);
    }
  }

  lemma OthersKeepLocal(s: State, st: Step)
    requires Enabled(s, st)
    ensures forall u :: st.Doom? || u != st.t ==> LocalOf(Apply(s, st), u) == LocalOf(s, u)
  {
  }

  lemma OthersLocal(s: State, s': State, st: Step, u: Thread)
    requires LinksOk(s.m) && PrivateOk(s) && (st.Doom? || u != st.t) && LocalOf(s', u) == LocalOf(s, u)
    requires LocalOk(s.m, LocalOf(s, u)) && Extends(s.m, s'.m) && LinksOnly(s, s', st)
    ensures LocalOk(s'.m, LocalOf(s', u))
  {
    LocalKept(s.m, s'.m, LocalOf(s, u));
  }

  lemma StepPrivate(s: State, st: Step)
    requires LinksOk(s.m) && PrivateOk(s) && Enabled(s, st) && forall t :: LocalOk(s.m, LocalOf(s, t))
    ensures PrivateOk(Apply(s, st))
  {
    var s' := Apply(s, st);
    assert forall u :: st.Doom? || u != st.t ==> LocalOf(s', u) == LocalOf(s, u);
    forall u, v | u != v && LocalOf(s', u).Linking? && LocalOf(s', v).Linking?
      ensures LocalOf(s', u).cell != LocalOf(s', v).cell
    {
      assert LocalOk(s.m, LocalOf(s, u)) && LocalOk(s.m, LocalOf(s, v));
    }
  }

  lemma StepInv(s: State, order: seq<Node>, st: Step) returns (order': seq<Node>)
    requires Inv(s, order) && Enabled(s, st)
    ensures Inv(Apply(s, st), order') && TakesOff(Apply(s, st), st, order, order')
  {
    order' := MemStep(s, order, st);
    StepPrivate(s, st);
    OthersKeepLocal(s, st);
    var s' := Apply(s, st);
    forall u ensures LocalOk(s'.m, LocalOf(s', u)) {
      assert LocalOk(s.m, LocalOf(s, u));
      if st.Doom? || u != st.t {
        OthersLocal(s, s', st, u);
      } else {
        OwnLocal(s, st);
      }
    }
  }

  // ------------------------------------------------------ the garbage list

  predicate Owns(l: Local) {
    l.Push? || l.Swing?
  }

  /** `cells` is the garbage list, ending in the head cell as its end marker. */
  ghost predicate GarbageChain(g: Garbage, cells: seq<Node>) {
    && cells != [] && cells[0] == g.head && cells[|cells| - 1] == HEAD && Distinct(cells)
    && (forall i :: 0 <= i < |cells| - 1 ==> GarbageOf(g, cells[i]) == Next(cells[i + 1]))
  }

  ghost predicate GarbageInv(s: State, cells: seq<Node>) {
    && GarbageChain(s.g, cells)
    && (forall t :: Owns(LocalOf(s, t)) ==>
          && LocalOf(s, t).curr !in cells && GarbageOf(s.g, LocalOf(s, t).curr) != Free
          && (LocalOf(s, t).Swing? ==> GarbageOf(s.g, LocalOf(s, t).curr) == Next(LocalOf(s, t).h)))
    && (forall t, u :: t != u && Owns(LocalOf(s, t)) && Owns(LocalOf(s, u)) ==>
          LocalOf(s, t).curr != LocalOf(s, u).curr)
  }

  lemma FreeIsUnlisted(g: Garbage, cells: seq<Node>, n: Node)
    requires GarbageChain(g, cells) && n != HEAD && GarbageOf(g, n) == Free
    ensures n !in cells
  {
    forall i | 0 <= i < |cells| ensures cells[i] != n {
      assert i < |cells| - 1 ==> GarbageOf(g, cells[i]) == Next(cells[i + 1]);
    }
  }

  lemma ClaimGarbage(s: State, cells: seq<Node>, t: Thread)
    requires GarbageInv(s, cells) && Enabled(s, Claim(t)) && LocalOf(s, t).curr != HEAD
    ensures GarbageInv(Apply(s, Claim(t)), cells)
  {
    var s' := Apply(s, Claim(t));
    assert forall u :: u != t ==> LocalOf(s', u) == LocalOf(s, u);
    if GarbageOf(s.g, LocalOf(s, t).curr) == Free {
      FreeIsUnlisted(s.g, cells, LocalOf(s, t).curr);
    }
  }

  lemma LoadGarbageList(s: State, cells: seq<Node>, t: Thread)
    requires GarbageInv(s, cells) && Enabled(s, LoadGarbage(t))
    ensures GarbageInv(Apply(s, LoadGarbage(t)), cells)
  {
    var s' := Apply(s, LoadGarbage(t));
    assert forall u :: u != t ==> LocalOf(s', u) == LocalOf(s, u);
    assert LocalOf(s, t).curr !in cells;
  }

  lemma PushedChain(g: Garbage, cells: seq<Node>, n: Node)
    requires GarbageChain(g, cells) && n !in cells && GarbageOf(g, n) == Next(g.head)
    ensures GarbageChain(g.(head := n), [n] + cells)
  {
    var cells' := [n] + cells;
    assert forall i :: 0 < i < |cells'| ==> cells'[i] == cells[i - 1];
  }

  lemma SwingGarbage(s: State, cells: seq<Node>, t: Thread) returns (cells': seq<Node>)
    requires GarbageInv(s, cells) && Enabled(s, SwingCas(t))
    ensures GarbageInv(Apply(s, SwingCas(t)), cells')
    ensures cells' == cells || (LocalOf(s, t).curr !in cells && cells' == [LocalOf(s, t).curr] + cells)
  {
    var s' := Apply(s, SwingCas(t));
    assert forall u :: u != t ==> LocalOf(s', u) == LocalOf(s, u);
    var l := LocalOf(s, t);
    assert Owns(l);
    cells' := cells;
    if s.g.head == l.h {
      PushedChain(s.g, cells, l.curr);
      cells' := [l.curr] + cells;
    }
  }

  /** The list only ever grows at its front, by the one claimer of the pushed cell. */
  lemma StepGarbage(s: State, order: seq<Node>, cells: seq<Node>, st: Step) returns (cells': seq<Node>)
    requires Inv(s, order) && GarbageInv(s, cells) && Enabled(s, st)
    ensures GarbageInv(Apply(s, st), cells')
    ensures cells' == cells || exists n :: n !in cells && cells' == [n] + cells
  {
    cells' := cells;
    match st
    case Claim(t) =>
      assert LocalOk(s.m, LocalOf(s, t));
      ClaimGarbage(s, cells, t);
    case LoadGarbage(t) => LoadGarbageList(s, cells, t);
    case SwingCas(t) => cells' := SwingGarbage(s, cells, t);
    case _ => QuietGarbage(s, cells, st);
  }

  lemma QuietGarbage(s: State, cells: seq<Node>, st: Step)
    requires GarbageInv(s, cells) && Enabled(s, st) && !st.Claim? && !st.LoadGarbage? && !st.SwingCas?
    ensures GarbageInv(Apply(s, st), cells)
  {
    var s' := Apply(s, st);
    assert forall u :: st.Doom? || u != st.t ==> LocalOf(s', u) == LocalOf(s, u);
  }

  // ---------------------------------------------------------- the dictionary

  /** The keys of the list, as a set: those of the inserted, unmarked cells. */
  ghost function Contents(m: Mem): set<nat> {
    set n | n in m.linked && n != HEAD && n != TAIL && !NextOf(m, n).marked :: KeyOf(m, n)
  }

  lemma UnmarkedKeysDiffer(m: Mem, order: seq<Node>, a: Node, b: Node)
    requires LinksOk(m) && ChainOk(m, order) && Unmarked(m, a) && Unmarked(m, b) && KeyOf(m, a) == KeyOf(m, b)
    ensures a == b
  {
    var i :| 0 <= i < |order| && order[i] == a;
    var j :| 0 <= j < |order| && order[j] == b;
    if i < j {
      ChainIncreasing(m, order, i, j);
    } else if j < i {
      ChainIncreasing(m, order, j, i);
    }
  }

  /** A key strictly between two neighbours of the chain is not in the list. */
  lemma GapKey(m: Mem, order: seq<Node>, pred: Node, k: nat)
    requires LinksOk(m) && ChainOk(m, order) && Unmarked(m, pred) && pred != TAIL
    requires KeyOf(m, pred) < k < KeyOf(m, NextOf(m, pred).succ)
    ensures k !in Contents(m)
  {
    var i := FindPred(m, order, pred);
    forall n | Unmarked(m, n) ensures KeyOf(m, n) != k {
      var j :| 0 <= j < |order| && order[j] == n;
      if j < i {
        ChainIncreasing(m, order, j, i);
      } else if j > i + 1 {
        ChainIncreasing(m, order, i + 1, j);
      }
    }
  }

  lemma SnipContents(s: State, t: Thread)
    requires Enabled(s, SnipCas(t)) && LocalOk(s.m, LocalOf(s, t))
    ensures Contents(Apply(s, SnipCas(t)).m) == Contents(s.m)
  {
    var m' := Apply(s, SnipCas(t)).m;
    assert m'.linked == s.m.linked;
    assert forall n :: NextOf(m', n).marked == NextOf(s.m, n).marked && KeyOf(m', n) == KeyOf(s.m, n);
  }

  lemma LinkContents(s: State, order: seq<Node>, t: Thread)
    requires Inv(s, order) && Enabled(s, LinkCas(t))
    ensures var l, m' := LocalOf(s, t), Apply(s, LinkCas(t)).m;
      if m' != s.m then l.k !in Contents(s.m) && Contents(m') == Contents(s.m) + {l.k}
      else Contents(m') == Contents(s.m)
  {
    var l, m' := LocalOf(s, t), Apply(s, LinkCas(t)).m;
    assert LocalOk(s.m, l);
    if NextOf(s.m, l.pred) == Link(l.curr, false) {
      GapKey(s.m, order, l.pred, l.k);
      assert forall n :: NextOf(m', n).marked == NextOf(s.m, n).marked && KeyOf(m', n) == KeyOf(s.m, n);
      assert l.cell in m'.linked && KeyOf(m', l.cell) == l.k;
      assert l.k in Contents(m');
    }
  }

  lemma MarkContents(s: State, order: seq<Node>, t: Thread)
    requires Inv(s, order) && Enabled(s, MarkCas(t))
    ensures var l, m' := LocalOf(s, t), Apply(s, MarkCas(t)).m;
      if m' != s.m then l.k in Contents(s.m) && Contents(m') == Contents(s.m) - {l.k}
      else Contents(m') == Contents(s.m)
  {
    var l, m' := LocalOf(s, t), Apply(s, MarkCas(t)).m;
    assert LocalOk(s.m, l);
    if NextOf(s.m, l.curr) == Link(l.succ, false) {
      assert forall n :: n != l.curr ==> NextOf(m', n) == NextOf(s.m, n);
      assert forall n :: KeyOf(m', n) == KeyOf(s.m, n);
      assert l.curr != HEAD && l.curr != TAIL && Unmarked(s.m, l.curr);
      forall n | Unmarked(s.m, n) && KeyOf(s.m, n) == l.k ensures n == l.curr {
        UnmarkedKeysDiffer(s.m, order, n, l.curr);
      }
    }
  }

  /** Every step is one action on the set of keys: a successful link adds its key,
      which was absent; a successful mark removes its key, which was present; and
      nothing else changes the set. */
  lemma StepContents(s: State, order: seq<Node>, st: Step)
    requires Inv(s, order) && Enabled(s, st)
    ensures var m' := Apply(s, st).m;
      if m' != s.m && st.LinkCas? then
        LocalOf(s, st.t).k !in Contents(s.m) && Contents(m') == Contents(s.m) + {LocalOf(s, st.t).k}
      else if m' != s.m && st.MarkCas? then
        LocalOf(s, st.t).k in Contents(s.m) && Contents(m') == Contents(s.m) - {LocalOf(s, st.t).k}
      else Contents(m') == Contents(s.m)
  {
    match st
    case LinkCas(t) => LinkContents(s, order, t);
    case MarkCas(t) => MarkContents(s, order, t);
    case SnipCas(t) =>
      assert LocalOk(s.m, LocalOf(s, t));
      SnipContents(s, t);
    case Build(_, cell) =>
      assert forall n :: n != cell ==>
        NextOf(Apply(s, st).m, n) == NextOf(s.m, n) && KeyOf(Apply(s, st).m, n) == KeyOf(s.m, n);
    case _ =>
  }

  // -------------------------------------------------------------- whole runs

  lemma InitInv()
    ensures Inv(InitState(), [HEAD, TAIL]) && GarbageInv(InitState(), [HEAD])
  {
  }

  lemma {:induction false} RunInv(s: State, order: seq<Node>, cells: seq<Node>, steps: seq<Step>, s': State)
    returns (order': seq<Node>, cells': seq<Node>)
    requires Inv(s, order) && GarbageInv(s, cells) && Reaches(s, steps, s')
    ensures Inv(s', order') && GarbageInv(s', cells')
    decreases |steps|
  {
    if steps == [] {
      order', cells' := order, cells;
    } else {
      var order1 := StepInv(s, order, steps[0]);
      var cells1 := StepGarbage(s, order, cells, steps[0]);
      order', cells' := RunInv(Apply(s, steps[0]), order1, cells1, steps[1..], s');
    }
  }

  lemma {:induction false} RunFrozen(s: State, order: seq<Node>, steps: seq<Step>, s': State, n: Node)
    requires Inv(s, order) && Reaches(s, steps, s') && n in s.m.linked && NextOf(s.m, n).marked
    ensures n in s'.m.linked && NextOf(s'.m, n) == NextOf(s.m, n)
    decreases |steps|
  {
    if steps != [] {
      var order1 := StepInv(s, order, steps[0]);
      var _ := MemStep(s, order, steps[0]);
      RunFrozen(Apply(s, steps[0]), order1, steps[1..], s', n);
    }
  }

  /** In any run: the chain from the head ends at the tail in strictly increasing key
      order and contains every inserted cell that is not marked; one removal succeeds
      on each marked cell and none on the others; and no cell is on the garbage list
      twice. */
  lemma ListShape(steps: seq<Step>, s: State) returns (order: seq<Node>, cells: seq<Node>)
    requires Reaches(InitState(), steps, s)
    ensures ChainOk(s.m, order)
    ensures forall i, j :: 0 <= i < j < |order| ==> KeyOf(s.m, order[i]) < KeyOf(s.m, order[j])
    ensures RemovedOk(s.m)
    ensures GarbageChain(s.g, cells)
  {
    InitInv();
    order, cells := RunInv(InitState(), [HEAD, TAIL], [HEAD], steps, s);
    forall i, j | 0 <= i < j < |order| ensures KeyOf(s.m, order[i]) < KeyOf(s.m, order[j]) {
      ChainIncreasing(s.m, order, i, j);
    }
  }

  /** A marked cell's link never changes again, and its removal is never undone. */
  lemma MarkedFrozen(before: seq<Step>, s: State, after: seq<Step>, s': State, n: Node)
    requires Reaches(InitState(), before, s) && Reaches(s, after, s')
    requires n in s.m.linked && NextOf(s.m, n).marked
    ensures NextOf(s'.m, n) == NextOf(s.m, n) && s'.m.removed[n] == 1
  {
    InitInv();
    var order, cells := RunInv(InitState(), [HEAD, TAIL], [HEAD], before, s);
    var order', cells' := RunInv(s, order, cells, after, s');
    RunFrozen(s, order, after, s', n);
  }

  /** The list refines a set of keys over any run, step by step. */
  lemma Dictionary(before: seq<Step>, s: State, st: Step)
    requires Reaches(InitState(), before, s) && Enabled(s, st)
    ensures var m' := Apply(s, st).m;
      if m' != s.m && st.LinkCas? then
        LocalOf(s, st.t).k !in Contents(s.m) && Contents(m') == Contents(s.m) + {LocalOf(s, st.t).k}
      else if m' != s.m && st.MarkCas? then
        LocalOf(s, st.t).k in Contents(s.m) && Contents(m') == Contents(s.m) - {LocalOf(s, st.t).k}
      else Contents(m') == Contents(s.m)
  {
    InitInv();
    var order, cells := RunInv(InitState(), [HEAD, TAIL], [HEAD], before, s);
    StepContents(s, order, st);
  }

  // -------------------------------------------------- operations that change nothing

  /** At some moment of the run, its two ends included, the key is in the list, or is not. */
  ghost predicate Sometime(s: State, steps: seq<Step>, k: nat, inside: bool)
    decreases |steps|
  {
    || (k in Contents(s.m)) == inside
    || (steps != [] && Enabled(s, steps[0]) && Sometime(Apply(s, steps[0]), steps[1..], k, inside))
  }

  /** Thread `t` is in one operation throughout. */
  ghost predicate Within(s: State, steps: seq<Step>, t: Thread)
    decreases |steps|
  {
    !LocalOf(s, t).Idle? && (steps != [] && Enabled(s, steps[0]) ==> Within(Apply(s, steps[0]), steps[1..], t))
  }

  /** What an operation on `k` goes by, if `absent` and `present` tell whether there has
      been a moment of it with the key out of, and in, the list. */
  ghost predicate EvidenceOk(m: Mem, l: Local, k: nat, absent: bool, present: bool) {
    && !l.Idle? && l.k == k && (if k in Contents(m) then present else absent)
    && (l.Marking? || l.Found? || l.Linking? || PassedOver(m, l.pred, k, absent))
    && (l.Look? && KeyOf(m, l.curr) > k ==> absent)
    && (l.Found? ==> if KeyOf(m, l.curr) == k then present else absent)
    && (l.Found? || l.Marking? ==> Replaced(m, l.curr, k, absent))
  }

  /** A predecessor that has been marked since it was entered, and whose link skips the
      key: when it was marked the key was absent. */
  ghost predicate PassedOver(m: Mem, pred: Node, k: nat, absent: bool) {
    NextOf(m, pred).marked && KeyOf(m, NextOf(m, pred).succ) > k ==> absent
  }

  /** A cell with the key that has been marked since it was found: then the key was absent. */
  ghost predicate Replaced(m: Mem, curr: Node, k: nat, absent: bool) {
    KeyOf(m, curr) == k && NextOf(m, curr).marked ==> absent
  }

  /** Marking a cell leaves its successor, and takes its key out of the list. */
  lemma MarkedNow(s: State, order: seq<Node>, st: Step, n: Node)
    requires Inv(s, order) && Enabled(s, st) && Unmarked(s.m, n) && NextOf(Apply(s, st).m, n).marked
    ensures NextOf(Apply(s, st).m, n).succ == NextOf(s.m, n).succ && KeyOf(Apply(s, st).m, n) == KeyOf(s.m, n)
    ensures KeyOf(s.m, n) !in Contents(Apply(s, st).m)
  {
    assert st.MarkCas? && LocalOf(s, st.t).curr == n && LocalOk(s.m, LocalOf(s, st.t));
    StepContents(s, order, st);
  }

  /** What stays of a cell that was inserted: its key, and its link once it is marked. */
  lemma CellKept(s: State, order: seq<Node>, st: Step, n: Node)
    requires Inv(s, order) && Enabled(s, st) && n in s.m.linked
    ensures n in Apply(s, st).m.linked && KeyOf(Apply(s, st).m, n) == KeyOf(s.m, n)
    ensures NextOf(s.m, n).marked ==> NextOf(Apply(s, st).m, n) == NextOf(s.m, n)
  {
    var _ := MemStep(s, order, st);
  }

  lemma PassedOverKept(s: State, order: seq<Node>, st: Step, pred: Node, k: nat, absent: bool)
    requires Inv(s, order) && Enabled(s, st) && pred in s.m.linked && pred != TAIL && KeyOf(s.m, pred) < k
    requires PassedOver(s.m, pred, k, absent) && (k !in Contents(s.m) ==> absent)
    ensures PassedOver(Apply(s, st).m, pred, k, absent)
  {
    var m' := Apply(s, st).m;
    CellKept(s, order, st, pred);
    CellKept(s, order, st, NextOf(s.m, pred).succ);
    if NextOf(m', pred).marked && !NextOf(s.m, pred).marked {
      MarkedNow(s, order, st, pred);
      if KeyOf(m', NextOf(m', pred).succ) > k {
        GapKey(s.m, order, pred, k);
      }
    }
  }

  lemma ReplacedKept(s: State, order: seq<Node>, st: Step, curr: Node, k: nat, absent: bool)
    requires Inv(s, order) && Enabled(s, st) && curr in s.m.linked && Replaced(s.m, curr, k, absent)
    ensures Replaced(Apply(s, st).m, curr, k, absent || k !in Contents(Apply(s, st).m))
  {
    CellKept(s, order, st, curr);
    if NextOf(Apply(s, st).m, curr).marked && !NextOf(s.m, curr).marked {
      MarkedNow(s, order, st, curr);
    }
  }

  /** Steps of other threads. */
  lemma EvidenceKept(s: State, order: seq<Node>, st: Step, t: Thread, k: nat, absent: bool, present: bool)
    requires Inv(s, order) && Enabled(s, st) && (st.Doom? || st.t != t)
    requires EvidenceOk(s.m, LocalOf(s, t), k, absent, present)
    ensures var s' := Apply(s, st);
      EvidenceOk(s'.m, LocalOf(s', t), k, absent || k !in Contents(s'.m), present || k in Contents(s'.m))
  {
    var l := LocalOf(s, t);
    assert LocalOk(s.m, l);
    OthersKeepLocal(s, st);
    if !(l.Marking? || l.Found? || l.Linking?) {
      PassedOverKept(s, order, st, l.pred, k, absent);
    }
    if !l.Search? {
      CellKept(s, order, st, l.curr);
    }
    if l.Found? || l.Marking? {
      ReplacedKept(s, order, st, l.curr, k, absent);
    }
  }

  /** A link read from an unmarked cell below the key, and leading above it. */
  lemma LinkRead(s: State, order: seq<Node>, n: Node, k: nat)
    requires Inv(s, order) && n in s.m.linked && n != TAIL && KeyOf(s.m, n) < k
    ensures !NextOf(s.m, n).marked && KeyOf(s.m, NextOf(s.m, n).succ) > k ==> k !in Contents(s.m)
  {
    if !NextOf(s.m, n).marked && KeyOf(s.m, NextOf(s.m, n).succ) > k {
      GapKey(s.m, order, n, k);
    }
  }

  /** Steps of the thread itself that load a link. */
  lemma EvidenceLoad(s: State, order: seq<Node>, st: Step, k: nat, absent: bool, present: bool)
    requires Inv(s, order) && Enabled(s, st) && (st.LoadCurr? || st.LoadNext?)
    requires EvidenceOk(s.m, LocalOf(s, st.t), k, absent, present)
    ensures EvidenceOk(Apply(s, st).m, LocalOf(Apply(s, st), st.t), k, absent, present)
  {
    var l := LocalOf(s, st.t);
    assert LocalOk(s.m, l);
    if st.LoadCurr? {
      LinkRead(s, order, l.pred, k);
    } else if KeyOf(s.m, l.curr) < k {
      LinkRead(s, order, l.curr, k);
    } else if KeyOf(s.m, l.curr) == k && !NextOf(s.m, l.curr).marked {
      assert l.curr != HEAD && l.curr != TAIL;
    }
  }

  /** Its other steps that leave the links alone. */
  lemma EvidenceQuiet(s: State, order: seq<Node>, st: Step, k: nat, absent: bool, present: bool)
    requires Inv(s, order) && Enabled(s, st)
    requires st.Enter? || st.UpperSnip? || st.Claim? || st.LoadGarbage? || st.SwingCas? || st.LoadTarget?
    requires EvidenceOk(s.m, LocalOf(s, st.t), k, absent, present)
    ensures EvidenceOk(Apply(s, st).m, LocalOf(Apply(s, st), st.t), k, absent, present)
  {
    assert LocalOk(s.m, LocalOf(s, st.t));
  }

  /** Its steps that may change a link. */
  lemma EvidenceCas(s: State, order: seq<Node>, st: Step, k: nat, absent: bool, present: bool)
    requires Inv(s, order) && Enabled(s, st) && (st.SnipCas? || st.Build? || st.LinkCas? || st.MarkCas?)
    requires EvidenceOk(s.m, LocalOf(s, st.t), k, absent, present) && !LocalOf(Apply(s, st), st.t).Idle?
    ensures var s' := Apply(s, st);
      EvidenceOk(s'.m, LocalOf(s', st.t), k, absent || k !in Contents(s'.m), present || k in Contents(s'.m))
  {
    var l := LocalOf(s, st.t);
    assert LocalOk(s.m, l);
    if !(l.Marking? || l.Found? || l.Linking?) {
      PassedOverKept(s, order, st, l.pred, k, absent);
    }
    if l.Found? || l.Marking? {
      ReplacedKept(s, order, st, l.curr, k, absent);
    }
    var order' := StepInv(s, order, st);
    assert !NextOf(Apply(s, st).m, HEAD).marked;
  }

  lemma {:induction false} EvidenceRun(s: State, order: seq<Node>, steps: seq<Step>, s': State, t: Thread, k: nat,
                                       absent: bool, present: bool)
    requires Inv(s, order) && Reaches(s, steps, s') && Within(s, steps, t)
    requires EvidenceOk(s.m, LocalOf(s, t), k, absent, present)
    ensures EvidenceOk(s'.m, LocalOf(s', t), k, absent || Sometime(s, steps, k, false),
                       present || Sometime(s, steps, k, true))
    decreases |steps|
  {
    if steps != [] {
      var st, s1 := steps[0], Apply(s, steps[0]);
      if st.Doom? || st.t != t {
        EvidenceKept(s, order, st, t, k, absent, present);
      } else if st.LoadCurr? || st.LoadNext? {
        EvidenceLoad(s, order, st, k, absent, present);
      } else if st.SnipCas? || st.Build? || st.LinkCas? || st.MarkCas? {
        EvidenceCas(s, order, st, k, absent, present);
      } else {
        EvidenceQuiet(s, order, st, k, absent, present);
      }
      var order1 := StepInv(s, order, st);
      EvidenceRun(s1, order1, steps[1..], s', t, k, absent || k !in Contents(s1.m), present || k in Contents(s1.m));
    }
  }

  /** An operation that changes nothing has a moment to answer for: from its beginning on,
      a search that ends without the key has seen a moment without it, a search that ends
      with the key has seen a moment with it, and a removal that finds its cell marked by
      another has seen a moment without the key. */
  lemma Unsuccessful(before: seq<Step>, s0: State, t: Thread, k: nat, steps: seq<Step>, s: State)
    requires Reaches(InitState(), before, s0) && Enabled(s0, Begin(t, k))
    requires Reaches(Apply(s0, Begin(t, k)), steps, s) && Within(Apply(s0, Begin(t, k)), steps, t)
    ensures var l, begun := LocalOf(s, t), Apply(s0, Begin(t, k));
      && (l.Found? ==> l.k == k && Sometime(begun, steps, k, KeyOf(s.m, l.curr) == k))
      && (l.Marking? && NextOf(s.m, l.curr).marked ==> Sometime(begun, steps, k, false))
  {
    InitInv();
    var order, cells := RunInv(InitState(), [HEAD, TAIL], [HEAD], before, s0);
    var begun := Apply(s0, Begin(t, k));
    var order1 := StepInv(s0, order, Begin(t, k));
    EvidenceRun(begun, order1, steps, s, t, k, k !in Contents(begun.m), k in Contents(begun.m));
    var cells1 := StepGarbage(s0, order, cells, Begin(t, k));
    var order2, cells2 := RunInv(begun, order1, cells1, steps, s);
    assert LocalOk(s.m, LocalOf(s, t));
  }
}
