/**
  Nothing that leaves the lock-free list is lost (`runtime/lf_skiplist.c`): a cell that was
  inserted and is no longer on the chain is on the garbage list, or some thread is on its way
  to put it there; when no thread is, the chain and the garbage list hold every cell.
 */
module LockFreeGarbage {

  import opened LockFreeList

  ghost predicate InHand(s: State, n: Node) {
    exists t :: Holds(LocalOf(s, t), n)
  }

  /** A claimed cell is on the list, or its claimer still has it. */
  ghost predicate ClaimsKept(s: State, cells: seq<Node>) {
    forall n :: GarbageOf(s.g, n) != Free ==> Kept(s, cells, n)
  }

  ghost predicate Kept(s: State, cells: seq<Node>, n: Node) {
    n in cells || exists t :: Owns(LocalOf(s, t)) && Holds(LocalOf(s, t), n)
  }

  /** A cell off the chain is on the garbage list, or in some thread's hands. */
  ghost predicate Accounted(s: State, order: seq<Node>, cells: seq<Node>) {
    forall n :: n in s.m.linked && n !in order ==> n in cells || InHand(s, n)
  }

  /** The garbage list after a step holds what it held, and its head. */
  ghost predicate Grown(s': State, cells: seq<Node>, cells': seq<Node>) {
    (forall n :: n in cells ==> n in cells') && s'.g.head in cells'
  }

  /** A claimer keeps its cell until the cell is on the list. */
  lemma OwnerKeeps(s: State, cells: seq<Node>, st: Step, cells': seq<Node>, t: Thread)
    requires Enabled(s, st) && Grown(Apply(s, st), cells, cells') && Owns(LocalOf(s, t))
    ensures Kept(Apply(s, st), cells', LocalOf(s, t).curr)
  {
    var s', n := Apply(s, st), LocalOf(s, t).curr;
    if st.Doom? || st.t != t {
      assert LocalOf(s', t) == LocalOf(s, t);
    } else if st.SwingCas? && s.g.head == LocalOf(s, t).h {
      assert s'.g.head == n;
    } else {
      assert Owns(LocalOf(s', t)) && Holds(LocalOf(s', t), n);
    }
  }

  lemma KeptOn(s: State, cells: seq<Node>, st: Step, cells': seq<Node>, n: Node)
    requires Enabled(s, st) && Grown(Apply(s, st), cells, cells') && Kept(s, cells, n)
    ensures Kept(Apply(s, st), cells', n)
  {
    if n !in cells {
      var t :| Owns(LocalOf(s, t)) && Holds(LocalOf(s, t), n);
      OwnerKeeps(s, cells, st, cells', t);
    }
  }

  lemma StepClaims(s: State, cells: seq<Node>, st: Step, cells': seq<Node>)
    requires Enabled(s, st) && ClaimsKept(s, cells) && Grown(Apply(s, st), cells, cells')
    ensures ClaimsKept(Apply(s, st), cells')
  {
    var s' := Apply(s, st);
    forall n | GarbageOf(s'.g, n) != Free ensures Kept(s', cells', n) {
      if GarbageOf(s.g, n) != Free {
        KeptOn(s, cells, st, cells', n);
      } else {
        assert Owns(LocalOf(s', st.t)) && Holds(LocalOf(s', st.t), n);
      }
    }
  }

  /** Who collects a cell claims it, or another has claimed it before. */
  lemma HandsOn(s: State, cells: seq<Node>, st: Step, cells': seq<Node>, n: Node)
    requires Enabled(s, st) && ClaimsKept(s, cells) && Grown(Apply(s, st), cells, cells') && InHand(s, n)
    ensures n in cells' || InHand(Apply(s, st), n)
  {
    var s' := Apply(s, st);
    var t :| Holds(LocalOf(s, t), n);
    if Owns(LocalOf(s, t)) {
      OwnerKeeps(s, cells, st, cells', t);
    } else if st.Doom? || st.t != t {
      assert LocalOf(s', t) == LocalOf(s, t);
    } else if GarbageOf(s.g, n) == Free {
      assert Holds(LocalOf(s', t), n);
    } else {
      KeptOn(s, cells, st, cells', n);
    }
  }

  /** A cell that is linked now is on the chain now. */
  lemma NewOnChain(s: State, order: seq<Node>, st: Step, order': seq<Node>, n: Node)
    requires Inv(s, order) && Enabled(s, st) && Inv(Apply(s, st), order')
    requires n in Apply(s, st).m.linked && n !in s.m.linked
    ensures n in order'
  {
    var l := LocalOf(s, st.t);
    assert LocalOk(s.m, l);
    assert l.cell == n && !NextOf(Apply(s, st).m, n).marked;
  }

  lemma StepAccounted(s: State, order: seq<Node>, cells: seq<Node>, st: Step, order': seq<Node>, cells': seq<Node>)
    requires Inv(s, order) && Enabled(s, st) && Inv(Apply(s, st), order') && TakesOff(Apply(s, st), st, order, order')
    requires ClaimsKept(s, cells) && Accounted(s, order, cells) && Grown(Apply(s, st), cells, cells')
    ensures Accounted(Apply(s, st), order', cells')
  {
    var s' := Apply(s, st);
    forall n | n in s'.m.linked && n !in order' ensures n in cells' || InHand(s', n) {
      if n !in s.m.linked {
        NewOnChain(s, order, st, order', n);
      } else if n in order {
        assert Holds(LocalOf(s', st.t), n);
      } else if n !in cells {
        HandsOn(s, cells, st, cells', n);
      }
    }
  }

  lemma {:induction false} RunAccounted(s: State, order: seq<Node>, cells: seq<Node>, steps: seq<Step>, s': State)
    returns (order': seq<Node>, cells': seq<Node>)
    requires Inv(s, order) && GarbageInv(s, cells) && ClaimsKept(s, cells) && Accounted(s, order, cells)
    requires Reaches(s, steps, s')
    ensures Inv(s', order') && GarbageInv(s', cells') && ClaimsKept(s', cells') && Accounted(s', order', cells')
    decreases |steps|
  {
    order', cells' := order, cells;
    if steps != [] {
      var st := steps[0];
      order' := StepInv(s, order, st);
      cells' := StepGarbage(s, order, cells, st);
      StepClaims(s, cells, st, cells');
      StepAccounted(s, order, cells, st, order', cells');
      order', cells' := RunAccounted(Apply(s, st), order', cells', steps[1..], s');
    }
  }

  /** Over every run, no inserted cell is lost: it is on the chain, on the garbage list, or some
      thread is on its way to put it there; and once no thread is, all are on the one or the other. */
  lemma NothingLost(steps: seq<Step>, s: State) returns (order: seq<Node>, cells: seq<Node>)
    requires Reaches(InitState(), steps, s)
    ensures ChainOk(s.m, order) && GarbageChain(s.g, cells)
    ensures forall n :: n in s.m.linked ==> n in order || n in cells || InHand(s, n)
    ensures (forall t, n :: !Holds(LocalOf(s, t), n)) ==> forall n :: n in s.m.linked ==> n in order || n in cells
  {
    InitInv();
    order, cells := RunAccounted(InitState(), [HEAD, TAIL], [HEAD], steps, s);
  }
}
