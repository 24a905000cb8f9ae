/**
  Marshalling without sharing (flag NO_SHARING in `runtime/extern.c`): no position table,
  so an object is written as often as it is reached, and the reader keeps no object
  table. On acyclic data the result is the tree unfolding of the value.
 */
module MarshalTree {

  import opened Common
  import opened MarshalFormat
  import opened MarshalGraph
  import opened MarshalStream

  /** The unfolding of a value; a leaf carries a string, double or float array. */
  datatype Tree = IntTree(n: int) | AtomTree(tag: nat) | LeafTree(o: Obj) | NodeTree(tag: nat, kids: seq<Tree>)

  /** `rank` witnesses that the heap is acyclic. */
  ghost predicate Acyclic(h: Heap, rank: map<Addr, nat>) {
    forall a :: a in h ==> a in rank && RanksBelow(Children(h[a]), rank, rank[a])
  }

  ghost predicate RanksBelow(vs: seq<Val>, rank: map<Addr, nat>, bound: nat) {
    forall i :: 0 <= i < |vs| && vs[i].Ptr? ==> vs[i].a in rank && rank[vs[i].a] < bound
  }

  ghost function Rank(rank: map<Addr, nat>, v: Val): nat {
    if v.Ptr? && v.a in rank then 1 + rank[v.a] else 0
  }

  ghost function Unfold(h: Heap, rank: map<Addr, nat>, v: Val): Tree
    requires HeapOk(h) && Acyclic(h, rank) && ValOk(h, v)
    decreases Rank(rank, v)
  {
    match v
    case Long(n) => IntTree(n)
    case Atom(tag) => AtomTree(tag)
    case Ptr(a) =>
      assert ObjOk(h, h[a]);
      if !h[a].Block? then LeafTree(h[a])
      else
        var fields := h[a].fields;
        NodeTree(h[a].tag, seq(|fields|, i requires 0 <= i < |fields| =>
          assert ValOk(h, fields[i]);
          Unfold(h, rank, fields[i])))
  }

  ghost function Trees(h: Heap, rank: map<Addr, nat>, vs: seq<Val>): (ts: seq<Tree>)
    requires HeapOk(h) && Acyclic(h, rank) && ValsOk(h, vs)
    ensures |ts| == |vs|
  {
    seq(|vs|, i requires 0 <= i < |vs| => assert ValOk(h, vs[i]); Unfold(h, rank, vs[i]))
  }

  lemma {:induction false} UnfoldOk(h: Heap, rank: map<Addr, nat>, v: Val)
    requires HeapOk(h) && Acyclic(h, rank) && ValOk(h, v)
    ensures TreeOk(Unfold(h, rank, v))
    decreases Rank(rank, v)
  {
    if v.Ptr? && h[v.a].Block? {
      var fields, t := h[v.a].fields, Unfold(h, rank, v);
      assert ObjOk(h, h[v.a]);
      forall i | 0 <= i < |fields| ensures TreeOk(t.kids[i]) {
        assert ValOk(h, fields[i]);
        UnfoldOk(h, rank, fields[i]);
      }
    }
  }

  // ------------------------------------------------------------------ writing

  ghost function TreeItems(t: Tree): seq<Item>
    decreases t, 0
  {
    match t
    case IntTree(n) => [IntItem(n)]
    case AtomTree(tag) => [BlockItem(tag, 0)]
    case LeafTree(o) => [ItemOf(o)]
    case NodeTree(tag, kids) => [BlockItem(tag, |kids|)] + ForestItems(kids)
  }

  ghost function ForestItems(ts: seq<Tree>): seq<Item>
    decreases ts, 1
  {
    if ts == [] then [] else TreeItems(ts[0]) + ForestItems(ts[1..])
  }

  ghost function Weight(t: Tree): nat
    decreases t, 0
  {
    1 + if t.NodeTree? then ForestWeight(t.kids) else 0
  }

  ghost function ForestWeight(ts: seq<Tree>): nat
    decreases ts, 1
  {
    if ts == [] then 0 else Weight(ts[0]) + ForestWeight(ts[1..])
  }

  // ------------------------------------------------------------------ reading

  /** What slot `s` holds, or is going to hold, unfolds to `t`: destination number j
      is pending for tree number j. */
  ghost predicate SlotDenotes(r: Reader, trees: seq<Tree>, s: Slot, t: Tree)
    requires |trees| == |r.dests|
    decreases t, 1
  {
    || (exists j :: 0 <= j < |trees| && r.dests[j] == s && trees[j] == t)
    || (s !in r.dests && SlotOk(r, s) && ValueDenotes(r, trees, Content(r, s), t))
  }

  ghost predicate ValueDenotes(r: Reader, trees: seq<Tree>, v: Val, t: Tree)
    requires |trees| == |r.dests|
    decreases t, 0
  {
    match t
    case IntTree(n) => v == Long(n)
    case AtomTree(tag) => v == Atom(tag)
    case LeafTree(o) => v.Ptr? && v.a in r.mem && r.mem[v.a] == o && !o.Block?
    case NodeTree(tag, kids) =>
      && v.Ptr? && v.a in r.mem && r.mem[v.a].Block? && r.mem[v.a].tag == tag && |r.mem[v.a].fields| == |kids|
      && forall i :: 0 <= i < |kids| ==> SlotDenotes(r, trees, Field(v.a, i), kids[i])
  }

  ghost function Content(r: Reader, s: Slot): Val {
    if s.Root? then r.root
    else if s.a in r.mem && r.mem[s.a].Block? && s.i < |r.mem[s.a].fields| then r.mem[s.a].fields[s.i]
    else Long(0)
  }

  /** A tree that a marshalled value can have: its nodes are not empty and fit the
      format. */
  ghost predicate TreeOk(t: Tree)
    decreases t
  {
    ItemOk(HeadItem(t)) &&
    match t
    case LeafTree(o) => !o.Block?
    case NodeTree(_, kids) => kids != [] && forall i :: 0 <= i < |kids| ==> TreeOk(kids[i])
    case _ => true
  }

  ghost predicate ForestOk(ts: seq<Tree>) {
    forall i :: 0 <= i < |ts| ==> TreeOk(ts[i])
  }

  lemma FillContent(r: Reader, v: Val, s: Slot)
    requires DestsOk(r) && r.dests != [] && SlotOk(r, s)
    ensures SlotOk(Fill(r, v), s)
    ensures Content(Fill(r, v), s) == if s == r.dests[0] then v else Content(r, s)
  {
    assert SlotOk(r, r.dests[0]);
  }

  /** Storing a value of the right unfolding keeps what every slot denotes. */
  lemma {:induction false} FillDenotes(r: Reader, trees: seq<Tree>, v: Val, s: Slot, t: Tree)
    requires DestsOk(r) && |trees| == |r.dests| && r.dests != []
    requires ValueDenotes(r, trees, v, trees[0]) && SlotDenotes(r, trees, s, t)
    ensures SlotDenotes(Fill(r, v), trees[1..], s, t)
    decreases t, 1
  {
    var r', trees' := Fill(r, v), trees[1..];
    if j :| 0 < j < |trees| && r.dests[j] == s && trees[j] == t {
      assert r'.dests[j - 1] == s && trees'[j - 1] == t;
    } else {
      assert forall j :: 0 <= j < |r'.dests| ==> r'.dests[j] == r.dests[j + 1];
      if s == r.dests[0] {
        assert t == trees[0];
        assert SlotOk(r, s);
        FillValue(r, trees, v, v, t);
      } else {
        FillValue(r, trees, v, Content(r, s), t);
      }
      FillContent(r, v, s);
    }
  }

  lemma {:induction false} FillValue(r: Reader, trees: seq<Tree>, v: Val, x: Val, t: Tree)
    requires DestsOk(r) && |trees| == |r.dests| && r.dests != []
    requires ValueDenotes(r, trees, v, trees[0]) && ValueDenotes(r, trees, x, t)
    ensures ValueDenotes(Fill(r, v), trees[1..], x, t)
    decreases t, 0
  {
    if t.NodeTree? {
      forall i | 0 <= i < |t.kids| ensures SlotDenotes(Fill(r, v), trees[1..], Field(x.a, i), t.kids[i]) {
        FillDenotes(r, trees, v, Field(x.a, i), t.kids[i]);
      }
    }
  }

  /** So does allocating an object whose fields are read right after the current slot. */
  lemma {:induction false} AllocateDenotes(r: Reader, trees: seq<Tree>, o: Obj, kids: seq<Tree>, s: Slot, t: Tree)
    requires |trees| == |r.dests| && r.dests != [] && r.dest + 1 !in r.mem && |kids| == |Children(o)|
    requires SlotDenotes(r, trees, s, t) && (s.Field? ==> s.a != r.dest + 1)
    ensures SlotDenotes(Allocate(r, o), [trees[0]] + kids + trees[1..], s, t)
    decreases t, 1
  {
    var r', trees' := Allocate(r, o), [trees[0]] + kids + trees[1..];
    if j :| 0 <= j < |trees| && r.dests[j] == s && trees[j] == t {
      var j' := if j == 0 then 0 else j + |kids|;
      assert r'.dests[j'] == s && trees'[j'] == t;
    } else {
      assert forall j :: 0 <= j < |r'.dests| ==> r'.dests[j] != s;
      AllocateValue(r, trees, o, kids, Content(r, s), t);
    }
  }

  lemma {:induction false} AllocateValue(r: Reader, trees: seq<Tree>, o: Obj, kids: seq<Tree>, x: Val, t: Tree)
    requires |trees| == |r.dests| && r.dests != [] && r.dest + 1 !in r.mem && |kids| == |Children(o)|
    requires ValueDenotes(r, trees, x, t)
    ensures ValueDenotes(Allocate(r, o), [trees[0]] + kids + trees[1..], x, t)
    decreases t, 0
  {
    if t.NodeTree? {
      forall i | 0 <= i < |t.kids|
        ensures SlotDenotes(Allocate(r, o), [trees[0]] + kids + trees[1..], Field(x.a, i), t.kids[i])
      {
        AllocateDenotes(r, trees, o, kids, Field(x.a, i), t.kids[i]);
      }
    }
  }

  // ---------------------------------------------------------------- whole trees

  ghost function HeadItem(t: Tree): Item {
    match t
    case IntTree(n) => IntItem(n)
    case AtomTree(tag) => BlockItem(tag, 0)
    case LeafTree(o) => ItemOf(o)
    case NodeTree(tag, kids) => BlockItem(tag, |kids|)
  }

  ghost function Kids(t: Tree): seq<Tree> {
    if t.NodeTree? then t.kids else []
  }

  ghost predicate InStepPlain(r: Reader, trees: seq<Tree>, whole: Tree) {
    && |trees| == |r.dests| && DestsOk(r) && (forall a :: a in r.mem ==> a <= r.dest)
    && ForestOk(trees) && SlotDenotes(r, trees, Root, whole)
  }

  lemma {:induction false} ForestAppend(ts: seq<Tree>, us: seq<Tree>)
    ensures ForestItems(ts + us) == ForestItems(ts) + ForestItems(us)
    ensures ForestWeight(ts + us) == ForestWeight(ts) + ForestWeight(us)
    decreases |ts|
  {
    if ts == [] {
      assert ts + us == us;
    } else {
      ForestAppend(ts[1..], us);
      assert (ts + us)[1..] == ts[1..] + us;
      Associate(TreeItems(ts[0]), ForestItems(ts[1..]), ForestItems(us));
    }
  }

  /** The trees still to be read after the head of the first one. */
  ghost function Rest(trees: seq<Tree>): seq<Tree>
    requires trees != []
  {
    ([trees[0]] + Kids(trees[0]) + trees[1..])[1..]
  }

  /** The items of a forest: the head of its first tree, then its kids and the rest. */
  lemma ForestHead(trees: seq<Tree>)
    requires trees != []
    ensures ForestItems(trees) == [HeadItem(trees[0])] + ForestItems(Rest(trees))
    ensures ForestWeight(Rest(trees)) < ForestWeight(trees)
  {
    var t, rest := trees[0], trees[1..];
    assert Rest(trees) == Kids(t) + rest;
    ForestAppend(Kids(t), rest);
    if t.NodeTree? {
      Associate([HeadItem(t)], ForestItems(t.kids), ForestItems(rest));
    } else {
      assert [] + rest == rest;
    }
  }

  lemma ForestOkStep(trees: seq<Tree>)
    requires ForestOk(trees) && trees != []
    ensures ForestOk(trees[1..]) && ForestOk(Kids(trees[0]) + trees[1..])
    ensures ForestOk([trees[0]] + Kids(trees[0]) + trees[1..])
  {
    assert TreeOk(trees[0]);
  }

  lemma PlainLeaf(r: Reader, trees: seq<Tree>, whole: Tree, v: Val)
    requires InStepPlain(r, trees, whole) && trees != [] && ValueDenotes(r, trees, v, trees[0])
    requires ForestOk(trees[1..])
    ensures InStepPlain(Fill(r, v), trees[1..], whole)
  {
    FillDenotes(r, trees, v, Root, whole);
    FillDests(r, v);
  }

  lemma PlainAllocate(r: Reader, trees: seq<Tree>, whole: Tree, o: Obj)
    requires InStepPlain(r, trees, whole) && trees != [] && |Kids(trees[0])| == |Children(o)|
    requires ForestOk([trees[0]] + Kids(trees[0]) + trees[1..])
    ensures InStepPlain(Allocate(r, o), [trees[0]] + Kids(trees[0]) + trees[1..], whole)
  {
    AllocateDests(r, o);
    AllocateDenotes(r, trees, o, Kids(trees[0]), Root, whole);
  }

  lemma PendingDenotes(r: Reader, trees: seq<Tree>, j: nat)
    requires j < |trees| == |r.dests|
    ensures SlotDenotes(r, trees, r.dests[j], trees[j])
  {
  }

  lemma NewFieldDenotes(r: Reader, o: Obj, t: Tree, kids: seq<Tree>, rest: seq<Tree>, i: nat)
    requires r.dests != [] && |rest| == |r.dests| - 1 && |kids| == |Children(o)| && i < |kids|
    ensures |[t] + kids + rest| == |Allocate(r, o).dests|
    ensures SlotDenotes(Allocate(r, o), [t] + kids + rest, Field(r.dest + 1, i), kids[i])
  {
    Middle(r.dests[0], FieldSlots(r.dest + 1, |kids|), r.dests[1..], i);
    Middle(t, kids, rest, i);
    PendingDenotes(Allocate(r, o), [t] + kids + rest, 1 + i);
  }

  /** The new object unfolds to the tree at hand: its fields are pending for the kids. */
  lemma NewValueDenotes(r: Reader, t: Tree, rest: seq<Tree>, o: Obj)
    requires r.dests != [] && |rest| == |r.dests| - 1
    requires if t.LeafTree? then o == t.o && !o.Block?
             else t.NodeTree? && o == Block(t.tag, seq(|t.kids|, _ => Long(0)))
    ensures |[t] + Kids(t) + rest| == |Allocate(r, o).dests|
    ensures ValueDenotes(Allocate(r, o), [t] + Kids(t) + rest, Ptr(r.dest + 1), t)
  {
    if t.NodeTree? {
      var r1, trees1 := Allocate(r, o), [t] + t.kids + rest;
      forall i | 0 <= i < |t.kids| ensures SlotDenotes(r1, trees1, Field(r.dest + 1, i), t.kids[i]) {
        NewFieldDenotes(r, o, t, t.kids, rest, i);
      }
    }
  }

  lemma PlainObject(r: Reader, trees: seq<Tree>, whole: Tree, o: Obj)
    requires InStepPlain(r, trees, whole) && trees != []
    requires if trees[0].LeafTree? then o == trees[0].o && !o.Block?
             else trees[0].NodeTree? && o == Block(trees[0].tag, seq(|trees[0].kids|, _ => Long(0)))
    ensures InStepPlain(Fill(Allocate(r, o), Ptr(r.dest + 1)), ([trees[0]] + Kids(trees[0]) + trees[1..])[1..], whole)
  {
    ForestOkStep(trees);
    PlainAllocate(r, trees, whole, o);
    NewValueDenotes(r, trees[0], trees[1..], o);
    PlainLeaf(Allocate(r, o), [trees[0]] + Kids(trees[0]) + trees[1..], whole, Ptr(r.dest + 1));
  }

  /** The object read for the head of a tree. */
  ghost function HeadObj(t: Tree): Obj
    requires t.LeafTree? || t.NodeTree?
  {
    if t.LeafTree? then t.o else Block(t.tag, seq(|t.kids|, _ => Long(0)))
  }

  lemma HeadStep(t: Tree, r: Reader)
    requires TreeOk(t) && r.dests != []
    ensures t.IntTree? ==> ReadStep(HeadItem(t), r) == Some(Fill(r, Long(t.n)))
    ensures t.AtomTree? ==> ReadStep(HeadItem(t), r) == Some(Fill(r, Atom(t.tag)))
    ensures t.LeafTree? || t.NodeTree? ==>
              ReadStep(HeadItem(t), r) == Some(Fill(Allocate(r, HeadObj(t)), Ptr(r.dest + 1)))
  {
  }

  lemma PlainStep(r: Reader, trees: seq<Tree>, whole: Tree)
    requires InStepPlain(r, trees, whole) && trees != []
    ensures ReadStep(HeadItem(trees[0]), r).Some?
    ensures InStepPlain(ReadStep(HeadItem(trees[0]), r).value, ([trees[0]] + Kids(trees[0]) + trees[1..])[1..], whole)
  {
    var t := trees[0];
    assert TreeOk(t);
    HeadStep(t, r);
    if t.LeafTree? || t.NodeTree? {
      PlainObject(r, trees, whole, HeadObj(t));
    } else {
      ForestOkStep(trees);
      assert ([t] + Kids(t) + trees[1..])[1..] == trees[1..];
      PlainLeaf(r, trees, whole, if t.IntTree? then Long(t.n) else Atom(t.tag));
    }
  }

  lemma ReadHead(t: Item, more: seq<Item>, r: Reader)
    requires r.dests != [] && ReadStep(t, r).Some?
    ensures Read([t] + more, r) == Read(more, ReadStep(t, r).value)
  {
    assert ([t] + more)[1..] == more;
  }

  lemma ReadForestHead(trees: seq<Tree>, r: Reader)
    requires trees != [] && r.dests != [] && ReadStep(HeadItem(trees[0]), r).Some?
    ensures Read(ForestItems(trees), r) == Read(ForestItems(Rest(trees)), ReadStep(HeadItem(trees[0]), r).value)
    ensures ForestWeight(Rest(trees)) < ForestWeight(trees)
  {
    ForestHead(trees);
    ReadHead(HeadItem(trees[0]), ForestItems(Rest(trees)), r);
  }

  lemma {:induction false} PlainRun(r: Reader, trees: seq<Tree>, whole: Tree)
    requires InStepPlain(r, trees, whole)
    ensures Read(ForestItems(trees), r).Some?
    ensures InStepPlain(Read(ForestItems(trees), r).value, [], whole)
    decreases ForestWeight(trees)
  {
    if trees != [] {
      PlainStep(r, trees, whole);
      ReadForestHead(trees, r);
      PlainRun(ReadStep(HeadItem(trees[0]), r).value, Rest(trees), whole);
    }
  }

  /** The value `x` in `mem` unfolds to `t`. */
  ghost predicate Represents(mem: Heap, x: Val, t: Tree)
    decreases t
  {
    match t
    case IntTree(n) => x == Long(n)
    case AtomTree(tag) => x == Atom(tag)
    case LeafTree(o) => x.Ptr? && x.a in mem && mem[x.a] == o
    case NodeTree(tag, kids) =>
      && x.Ptr? && x.a in mem && mem[x.a].Block? && mem[x.a].tag == tag && |mem[x.a].fields| == |kids|
      && forall i :: 0 <= i < |kids| ==> Represents(mem, mem[x.a].fields[i], kids[i])
  }

  lemma {:induction false} DoneRepresents(r: Reader, x: Val, t: Tree)
    requires r.dests == [] && ValueDenotes(r, [], x, t)
    ensures Represents(r.mem, x, t)
    decreases t
  {
    if t.NodeTree? {
      forall i | 0 <= i < |t.kids| ensures Represents(r.mem, r.mem[x.a].fields[i], t.kids[i]) {
        assert SlotDenotes(r, [], Field(x.a, i), t.kids[i]);
        DoneRepresents(r, r.mem[x.a].fields[i], t.kids[i]);
      }
    }
  }

  const PLAIN_START := Reader([Root], map[], false, [], 0, Long(0))

  /** The items of a tree read back as a value that unfolds to it, without an object
      table. */
  lemma TreeRead(t: Tree)
    requires TreeOk(t)
    ensures var out := Read(TreeItems(t), PLAIN_START);
      out.Some? && Represents(out.value.mem, out.value.root, t) && out.value.table == []
  {
    assert SlotDenotes(PLAIN_START, [t], Root, t) by {
      assert PLAIN_START.dests[0] == Root && [t][0] == t;
    }
    SingleTree(t);
    PlainRun(PLAIN_START, [t], t);
    var out := Read(TreeItems(t), PLAIN_START).value;
    DoneRepresents(out, out.root, t);
    NoTable(TreeItems(t), PLAIN_START);
  }

  lemma {:induction false} NoTable(items: seq<Item>, r: Reader)
    requires !r.record && r.table == [] && Read(items, r).Some?
    ensures Read(items, r).value.table == []
    decreases |items|
  {
    if r.dests != [] {
      NoTable(items[1..], ReadStep(items[0], r).value);
    }
  }

  // ------------------------------------------------------------------ on bytes

  lemma {:induction false} ForestItemsOk(ts: seq<Tree>)
    requires ForestOk(ts)
    ensures ItemsOk(ForestItems(ts))
    decreases ForestWeight(ts)
  {
    if ts != [] {
      ForestHead(ts);
      ForestOkStep(ts);
      assert Rest(ts) == Kids(ts[0]) + ts[1..];
      ForestItemsOk(Rest(ts));
      assert TreeOk(ts[0]);
    }
  }

  /** The tree with the bytes of huge float arrays reversed. */
  ghost function RereadTree(t: Tree): Tree
    decreases t
  {
    match t
    case LeafTree(o) => LeafTree(RereadObj(o))
    case NodeTree(tag, kids) =>
      NodeTree(tag, seq(|kids|, i requires 0 <= i < |kids| => RereadTree(kids[i])))
    case _ => t
  }

  ghost function RereadForest(ts: seq<Tree>): (us: seq<Tree>)
    ensures |us| == |ts|
  {
    seq(|ts|, i requires 0 <= i < |ts| => RereadTree(ts[i]))
  }

  lemma {:induction false} RereadTreeOk(t: Tree)
    requires TreeOk(t)
    ensures TreeOk(RereadTree(t)) && HeadItem(RereadTree(t)) == Reread(HeadItem(t))
    decreases t
  {
    if t.NodeTree? {
      forall i | 0 <= i < |t.kids| ensures TreeOk(RereadTree(t).kids[i]) {
        RereadTreeOk(t.kids[i]);
      }
    }
  }

  lemma RereadRest(ts: seq<Tree>)
    requires ts != []
    ensures RereadForest(Rest(ts)) == Rest(RereadForest(ts))
  {
    assert Rest(ts) == Kids(ts[0]) + ts[1..];
    assert Rest(RereadForest(ts)) == RereadForest(Kids(ts[0])) + RereadForest(ts[1..]);
  }

  /** Rereading the items of trees gives the items of the reread trees. */
  lemma {:induction false} RereadForestItems(ts: seq<Tree>)
    requires ForestOk(ts)
    ensures RereadAll(ForestItems(ts)) == ForestItems(RereadForest(ts))
    decreases ForestWeight(ts)
  {
    if ts != [] {
      ForestOkStep(ts);
      assert Rest(ts) == Kids(ts[0]) + ts[1..];
      ForestHead(ts);
      RereadForestItems(Rest(ts));
      RereadHead(HeadItem(ts[0]), ForestItems(Rest(ts)));
      RereadRest(ts);
      RereadTreeOk(ts[0]);
      ForestHead(RereadForest(ts));
    }
  }

  lemma RereadHead(t: Item, more: seq<Item>)
    ensures RereadAll([t] + more) == [Reread(t)] + RereadAll(more)
  {
    assert ([t] + more)[1..] == more;
  }

  lemma SingleTree(t: Tree)
    ensures ForestItems([t]) == TreeItems(t)
  {
    assert [t][1..] == [] && ForestItems([]) == [];
  }

  /** The round trip without sharing, on bytes: a tree comes back as a value that unfolds
      to it, huge float arrays byte-reversed, and no object table is built. */
  lemma TreeRoundTrip(t: Tree, rest: seq<byte>)
    requires TreeOk(t)
    ensures ItemsOk(TreeItems(t))
    ensures var out := ReadStream(WriteItems(TreeItems(t)) + rest, PLAIN_START);
      out.Some? && Represents(out.value.mem, out.value.root, RereadTree(t)) && out.value.table == []
  {
    SingleTree(t);
    SingleTree(RereadTree(t));
    assert RereadForest([t]) == [RereadTree(t)];
    ForestItemsOk([t]);
    RereadForestItems([t]);
    RereadTreeOk(t);
    TreeRead(RereadTree(t));
    StreamItems(TreeItems(t), rest, PLAIN_START);
  }

  /** For every acyclic heap: what the NO_SHARING bytes of `v` read back as. */
  lemma PlainRoundTrip(h: Heap, rank: map<Addr, nat>, v: Val, rest: seq<byte>)
    requires HeapOk(h) && Acyclic(h, rank) && ValOk(h, v)
    ensures ItemsOk(TreeItems(Unfold(h, rank, v)))
    ensures var out := ReadStream(WriteItems(TreeItems(Unfold(h, rank, v))) + rest, PLAIN_START);
      out.Some? && Represents(out.value.mem, out.value.root, RereadTree(Unfold(h, rank, v)))
  {
    UnfoldOk(h, rank, v);
    TreeRoundTrip(Unfold(h, rank, v), rest);
  }
}
