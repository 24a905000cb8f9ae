/**
  Marshalling a heap graph, with sharing (`extern_rec` in `runtime/extern.c`,
  `intern_rec` in `runtime/intern.c`): what one turn of the writer's loop and one turn
  of the reader's loop do, and why the reader rebuilds an isomorphic graph.

  The heap holds strings, doubles, float arrays and ordinary blocks, linked in any way,
  cycles included.
 */
module MarshalGraph {

  import opened Common
  import opened MarshalFormat

  type Addr = nat

  /** A value: an integer, a zero-sized block (shared, never allocated), a pointer. */
  datatype Val = Long(n: int) | Atom(tag: nat) | Ptr(a: Addr)

  datatype Obj =
    | Str(bytes: seq<byte>)
    | Dbl(d: Double)
    | DblArr(ds: seq<Double>)
    | Block(tag: nat, fields: seq<Val>)

  type Heap = map<Addr, Obj>

  /** Tags below No_scan_tag without the special ones (continuation, closure, object,
      infix, forward). */
  predicate OrdinaryTag(tag: nat) {
    tag < 251 && tag != 245 && tag !in {247, 248, 249, 250}
  }

  predicate ValOk(h: Heap, v: Val) {
    match v
    case Long(n) => INT_MIN <= n <= INT_MAX
    case Atom(tag) => tag < 256
    case Ptr(a) => a in h
  }

  predicate ValsOk(h: Heap, vs: seq<Val>) {
    forall i :: 0 <= i < |vs| ==> ValOk(h, vs[i])
  }

  predicate ObjOk(h: Heap, o: Obj) {
    match o
    case Str(bytes) => |bytes| < 0x1000_0000_0000_0000
    case Dbl(_) => true
    case DblArr(ds) => 0 < |ds| <= MAX_WOSIZE
    case Block(tag, fields) => OrdinaryTag(tag) && 0 < |fields| <= MAX_WOSIZE && ValsOk(h, fields)
  }

  /** A heap the program can have: pointers lead to objects of it, and objects and
      their number fit the machine. */
  predicate HeapOk(h: Heap) {
    |h| < 0x1000_0000_0000_0000 && forall a :: a in h ==> ObjOk(h, h[a])
  }

  function Elems(s: seq<Addr>): set<Addr> {
    set i | 0 <= i < |s| :: s[i]
  }

  function Children(o: Obj): seq<Val> {
    if o.Block? then o.fields else []
  }

  function ItemOf(o: Obj): Item {
    match o
    case Str(bytes) => StringItem(bytes)
    case Dbl(d) => DoubleItem(d)
    case DblArr(ds) => DoubleArrayItem(ds)
    case Block(tag, fields) => BlockItem(tag, |fields|)
  }

  // ----------------------------------------------------------------- writing

  /** The writer's pending values, in order, and the objects emitted so far: an
      object's place in `seen` is its position, and |seen| is obj_counter. */
  datatype Writer = Writer(work: seq<Val>, seen: seq<Addr>)

  ghost predicate WriterOk(h: Heap, w: Writer) {
    && ValsOk(h, w.work)
    && (forall k :: 0 <= k < |w.seen| ==> w.seen[k] in h)
    && (forall k, l :: 0 <= k < l < |w.seen| ==> w.seen[k] != w.seen[l])
  }

  function IndexOf(s: seq<Addr>, a: Addr): (i: nat)
    requires a in s
    ensures i < |s| && s[i] == a
  {
    if s[0] == a then 0 else 1 + IndexOf(s[1..], a)
  }

  function WriteStep(h: Heap, w: Writer): (r: (Item, Writer))
    requires ValsOk(h, w.work) && w.work != []
  {
    match w.work[0]
    case Long(n) => (IntItem(n), w.(work := w.work[1..]))
    case Atom(tag) => (BlockItem(tag, 0), w.(work := w.work[1..]))
    case Ptr(a) =>
      if a in w.seen then (SharedItem(|w.seen| - IndexOf(w.seen, a)), w.(work := w.work[1..]))
      else (ItemOf(h[a]), Writer(Children(h[a]) + w.work[1..], w.seen + [a]))
  }

  lemma WriteStepOk(h: Heap, w: Writer)
    requires HeapOk(h) && WriterOk(h, w) && w.work != []
    ensures WriterOk(h, WriteStep(h, w).1)
  {
    var v, rest := w.work[0], w.work[1..];
    assert ValOk(h, v);
    assert ValsOk(h, rest);
    if v.Ptr? {
      assert ObjOk(h, h[v.a]);
    }
  }

  lemma UnseenShrinks(h: Heap, seen: seq<Addr>, a: Addr)
    requires a in h && a !in seen
    ensures |h.Keys - Elems(seen + [a])| < |h.Keys - Elems(seen)|
  {
    assert a !in Elems(seen) && Elems(seen + [a]) == Elems(seen) + {a} by {
      assert (seen + [a])[|seen|] == a;
      assert forall i :: 0 <= i < |seen| ==> (seen + [a])[i] == seen[i];
    }
    assert h.Keys - Elems(seen) == (h.Keys - Elems(seen + [a])) + {a};
  }

  /** The items of the whole traversal, and the objects it has emitted at its end. */
  ghost function Walk(h: Heap, w: Writer): (r: (seq<Item>, seq<Addr>))
    requires HeapOk(h) && WriterOk(h, w)
    decreases |h.Keys - Elems(w.seen)|, |w.work|
  {
    if w.work == [] then ([], w.seen)
    else
      var step := WriteStep(h, w);
      WriteStepOk(h, w);
      StepSmaller(h, w);
      var tail := Walk(h, step.1);
      ([step.0] + tail.0, tail.1)
  }

  // ----------------------------------------------------------------- reading

  /** Where the next value goes: the result, or a field of an object being filled. */
  datatype Slot = Root | Field(a: Addr, i: nat)

  /** The reader: pending destinations, memory, intern_obj_table (kept only when the
      header announces objects), words allocated (intern_dest), and the result. */
  datatype Reader = Reader(dests: seq<Slot>, mem: Heap, record: bool, table: seq<Addr>, dest: nat, root: Val)

  function Wosize(o: Obj): nat {
    match o
    case Str(bytes) => (|bytes| + 8) / 8
    case Dbl(_) => 1
    case DblArr(ds) => |ds|
    case Block(_, fields) => |fields|
  }

  /** The bytes that an object holds. A string holds one more, which tells how much of its
      last word is not used. */
  function ContentBytes(o: Obj): nat {
    match o
    case Str(bytes) => |bytes| + 1
    case Dbl(d) => |d|
    case DblArr(ds) => 8 * |ds|
    case Block(_, fields) => 8 * |fields|
  }

  /** An object has the fewest words of eight bytes that hold it. */
  lemma WordsHold(o: Obj)
    ensures ContentBytes(o) <= 8 * Wosize(o) < ContentBytes(o) + 8
  {
  }

  /** A string in memory: its bytes, zeros, and in the last byte the number of zeros. */
  function StringImage(bytes: seq<byte>): seq<byte> {
    var unused := 8 * Wosize(Str(bytes)) - ContentBytes(Str(bytes));
    WordsHold(Str(bytes));
    bytes + seq(unused, _ => 0) + [unused]
  }

  /** It fills its words, its length can be told from them, and a zero follows its bytes. */
  lemma StringLength(bytes: seq<byte>)
    ensures var image := StringImage(bytes);
      && |image| == 8 * Wosize(Str(bytes)) && bytes < image
      && |image| - 1 - image[|image| - 1] == |bytes| && image[|bytes|] == 0
  {
    WordsHold(Str(bytes));
  }

  /** An object with its fields still to be read. */
  function Blank(t: Item): Obj
    requires !t.IntItem? && !t.SharedItem?
  {
    match t
    case StringItem(bytes) => Str(bytes)
    case DoubleItem(d) => Dbl(d)
    case DoubleArrayItem(ds) => DblArr(ds)
    case BlockItem(tag, size) => Block(tag, seq(size, _ => Long(0)))
  }

  function FieldSlots(a: Addr, n: nat): seq<Slot> {
    seq(n, (i: nat) => Field(a, i))
  }

  /** intern_alloc_obj at the bump pointer, and the entry in the object table; the
      fields of the new object are read right after the current destination. */
  function Allocate(r: Reader, o: Obj): Reader
    requires r.dests != []
  {
    var a := r.dest + 1;
    Reader([r.dests[0]] + FieldSlots(a, |Children(o)|) + r.dests[1..],
           r.mem[a := o], r.record, if r.record then r.table + [a] else r.table, r.dest + 1 + Wosize(o), r.root)
  }

  /** *dest = v, and on to the next destination. */
  function Fill(r: Reader, v: Val): Reader
    requires r.dests != []
  {
    var r1 := r.(dests := r.dests[1..]);
    match r.dests[0]
    case Root => r1.(root := v)
    case Field(a, i) =>
      if a in r.mem && r.mem[a].Block? && i < |r.mem[a].fields| then
        r1.(mem := r.mem[a := r.mem[a].(fields := r.mem[a].fields[i := v])])
      else r1
  }

  /** One turn of intern_rec; None for a reference to no object. */
  function ReadStep(t: Item, r: Reader): Option<Reader>
    requires r.dests != []
  {
    if t.IntItem? then Some(Fill(r, Long(t.n)))
    else if t.SharedItem? then
      if 1 <= t.distance <= |r.table| then Some(Fill(r, Ptr(r.table[|r.table| - t.distance]))) else None
    else if t.BlockItem? && t.size == 0 then Some(Fill(r, Atom(t.tag)))
    else Some(Fill(Allocate(r, Blank(t)), Ptr(r.dest + 1)))
  }

  function Read(items: seq<Item>, r: Reader): Option<Reader> {
    if r.dests == [] then Some(r)
    else if items == [] then None
    else
      var r1 := ReadStep(items[0], r);
      if r1.None? then None else Read(items[1..], r1.value)
  }

  // -------------------------------------------- the two sides in lock step

  /** What a value of the source becomes, once its object has been emitted. */
  ghost function Image(seen: seq<Addr>, table: seq<Addr>, v: Val): Option<Val>
    requires |seen| == |table|
  {
    if !v.Ptr? then Some(v)
    else if v.a in seen then Some(Ptr(table[IndexOf(seen, v.a)]))
    else None
  }

  /** Same object up to the contents of fields. */
  ghost predicate SameShape(o: Obj, o': Obj) {
    if o.Block? then o'.Block? && o'.tag == o.tag && |o'.fields| == |o.fields| else o' == o
  }

  ghost predicate TableOk(r: Reader) {
    && (forall k :: 0 <= k < |r.table| ==> 0 < r.table[k] <= r.dest && r.table[k] in r.mem)
    && (forall k, l :: 0 <= k < l < |r.table| ==> r.table[k] != r.table[l])
    && (forall a :: a in r.mem ==> a <= r.dest)
    && |r.mem| == |r.table|
  }

  ghost predicate DestsOk(r: Reader) {
    && (forall j :: 0 <= j < |r.dests| ==> SlotOk(r, r.dests[j]))
    && (forall i, j :: 0 <= i < j < |r.dests| ==> r.dests[i] != r.dests[j])
  }

  ghost predicate SlotOk(r: Reader, s: Slot) {
    s.Field? ==> s.a in r.mem && r.mem[s.a].Block? && s.i < |r.mem[s.a].fields|
  }

  ghost predicate ShapesOk(h: Heap, w: Writer, r: Reader)
    requires |w.seen| == |r.table| && TableOk(r)
  {
    forall k :: 0 <= k < |w.seen| ==> w.seen[k] in h && SameShape(h[w.seen[k]], r.mem[r.table[k]])
  }

  /** Slot `s`, which is to receive `v`, is pending or has received it. */
  ghost predicate Served(w: Writer, r: Reader, s: Slot, v: Val, now: Val)
    requires |w.seen| == |r.table| && |w.work| == |r.dests|
  {
    || (exists j :: 0 <= j < |w.work| && r.dests[j] == s && w.work[j] == v)
    || (s !in r.dests && Image(w.seen, r.table, v) == Some(now))
  }

  /** Field `i` of object number `k`. */
  ghost predicate FieldOk(h: Heap, w: Writer, r: Reader, k: nat, i: nat)
    requires |w.seen| == |r.table| && |w.work| == |r.dests| && TableOk(r) && ShapesOk(h, w, r)
    requires k < |w.seen| && i < |Children(h[w.seen[k]])|
  {
    Served(w, r, Field(r.table[k], i), Children(h[w.seen[k]])[i], Children(r.mem[r.table[k]])[i])
  }

  ghost predicate FieldsOk(h: Heap, w: Writer, r: Reader)
    requires |w.seen| == |r.table| && |w.work| == |r.dests| && TableOk(r) && ShapesOk(h, w, r)
  {
    forall k: nat, i: nat {:trigger FieldOk(h, w, r, k, i)} ::
      k < |w.seen| && i < |Children(h[w.seen[k]])| ==> FieldOk(h, w, r, k, i)
  }

  /** The writer and the reader are at the same point of the traversal of `v0`. */
  ghost predicate InStep(h: Heap, v0: Val, w: Writer, r: Reader) {
    && r.record && |w.seen| == |r.table| && |w.work| == |r.dests|
    && TableOk(r) && DestsOk(r) && ShapesOk(h, w, r) && FieldsOk(h, w, r)
    && Served(w, r, Root, v0, r.root)
  }

  lemma {:induction false} IndexOfAppend(s: seq<Addr>, a: Addr, b: Addr)
    requires b in s
    ensures IndexOf(s + [a], b) == IndexOf(s, b)
  {
    if s[0] != b {
      assert (s + [a])[1..] == s[1..] + [a];
      IndexOfAppend(s[1..], a, b);
    }
  }

  lemma ImageAppend(seen: seq<Addr>, table: seq<Addr>, a: Addr, a': Addr, v: Val)
    requires |seen| == |table| && Image(seen, table, v).Some?
    ensures Image(seen + [a], table + [a'], v) == Image(seen, table, v)
  {
    if v.Ptr? {
      IndexOfAppend(seen, a, v.a);
    }
  }

  lemma ServedFill(w: Writer, r: Reader, v: Val, s: Slot, x: Val, now: Val)
    requires |w.seen| == |r.table| && |w.work| == |r.dests| && w.work != [] && DestsOk(r)
    requires Image(w.seen, r.table, w.work[0]) == Some(v)
    requires Served(w, r, s, x, now)
    ensures Served(w.(work := w.work[1..]), Fill(r, v), s, x, if s == r.dests[0] then v else now)
  {
    var w', r' := w.(work := w.work[1..]), Fill(r, v);
    if j :| 0 <= j < |w.work| && r.dests[j] == s && w.work[j] == x {
      if j > 0 {
        assert r'.dests[j - 1] == s && w'.work[j - 1] == x;
        assert s != r.dests[0];
      } else {
        assert forall i :: 0 <= i < |r'.dests| ==> r'.dests[i] == r.dests[i + 1] != s;
      }
    }
  }

  lemma FillTable(r: Reader, v: Val)
    requires r.dests != [] && TableOk(r)
    ensures TableOk(Fill(r, v))
  {
  }

  lemma FillShapes(h: Heap, w: Writer, r: Reader, v: Val)
    requires |w.seen| == |r.table| && r.dests != [] && TableOk(r) && ShapesOk(h, w, r)
    requires TableOk(Fill(r, v))
    ensures ShapesOk(h, w, Fill(r, v))
  {
    forall a | a in r.mem ensures a in Fill(r, v).mem && SameShape(r.mem[a], Fill(r, v).mem[a]) {
    }
  }

  lemma FillDests(r: Reader, v: Val)
    requires r.dests != [] && DestsOk(r)
    ensures DestsOk(Fill(r, v))
  {
    var r' := Fill(r, v);
    assert forall i :: 0 <= i < |r'.dests| ==> r'.dests[i] == r.dests[i + 1] && SlotOk(r, r'.dests[i]);
  }

  /** What a field of an object holds after the store. */
  lemma FillField(r: Reader, v: Val, a: Addr, i: nat)
    requires r.dests != [] && DestsOk(r) && a in r.mem && i < |Children(r.mem[a])|
    ensures a in Fill(r, v).mem && i < |Children(Fill(r, v).mem[a])|
    ensures Children(Fill(r, v).mem[a])[i] == if Field(a, i) == r.dests[0] then v else Children(r.mem[a])[i]
  {
    assert SlotOk(r, r.dests[0]);
  }

  lemma FillFields(h: Heap, w: Writer, r: Reader, v: Val)
    requires |w.seen| == |r.table| && |w.work| == |r.dests| && w.work != []
    requires TableOk(r) && DestsOk(r) && ShapesOk(h, w, r) && FieldsOk(h, w, r)
    requires Image(w.seen, r.table, w.work[0]) == Some(v)
    requires TableOk(Fill(r, v)) && ShapesOk(h, w.(work := w.work[1..]), Fill(r, v))
    ensures FieldsOk(h, w.(work := w.work[1..]), Fill(r, v))
  {
    var w', r' := w.(work := w.work[1..]), Fill(r, v);
    forall k: nat, i: nat | k < |w.seen| && i < |Children(h[w.seen[k]])| ensures FieldOk(h, w', r', k, i) {
      assert FieldOk(h, w, r, k, i);
      FillField(r, v, r.table[k], i);
      ServedFill(w, r, v, Field(r.table[k], i), Children(h[w.seen[k]])[i], Children(r.mem[r.table[k]])[i]);
    }
  }

  /** Storing the image of the current value keeps the two sides in step. */
  lemma FillInStep(h: Heap, v0: Val, w: Writer, r: Reader, v: Val)
    requires InStep(h, v0, w, r) && w.work != [] && Image(w.seen, r.table, w.work[0]) == Some(v)
    ensures InStep(h, v0, w.(work := w.work[1..]), Fill(r, v))
  {
    FillTable(r, v);
    FillShapes(h, w, r, v);
    FillDests(r, v);
    FillFields(h, w, r, v);
    ServedFill(w, r, v, Root, v0, r.root);
  }

  lemma NotPending(r: Reader, o: Obj, s: Slot)
    requires r.dests != [] && s !in r.dests && (s.Field? ==> s.a != r.dest + 1)
    ensures s !in Allocate(r, o).dests
  {
    assert s !in FieldSlots(r.dest + 1, |Children(o)|);
    assert s !in [r.dests[0]] && s !in r.dests[1..];
  }

  lemma ServedAllocate(h: Heap, w: Writer, r: Reader, a: Addr, o: Obj, s: Slot, x: Val, now: Val)
    requires |w.seen| == |r.table| && |w.work| == |r.dests| && w.work != [] && r.record
    requires a in h && a !in w.seen && |Children(o)| == |Children(h[a])|
    requires Served(w, r, s, x, now) && (s.Field? ==> s.a != r.dest + 1)
    ensures Served(Writer([w.work[0]] + Children(h[a]) + w.work[1..], w.seen + [a]), Allocate(r, o), s, x, now)
  {
    var n := |Children(h[a])|;
    var w', r' := Writer([w.work[0]] + Children(h[a]) + w.work[1..], w.seen + [a]), Allocate(r, o);
    if j :| 0 <= j < |w.work| && r.dests[j] == s && w.work[j] == x {
      var j' := if j == 0 then 0 else j + n;
      assert r'.dests[j'] == s && w'.work[j'] == x;
    } else {
      ImageAppend(w.seen, r.table, a, r.dest + 1, x);
      NotPending(r, o, s);
    }
  }

  lemma AllocateTable(r: Reader, o: Obj)
    requires r.dests != [] && r.record && TableOk(r)
    ensures TableOk(Allocate(r, o))
  {
    var r', b := Allocate(r, o), r.dest + 1;
    assert forall k :: 0 <= k < |r.table| ==> r'.table[k] == r.table[k] && r.table[k] != b;
    assert r'.table[|r.table|] == b;
  }

  lemma AllocateShapes(h: Heap, w: Writer, r: Reader, a: Addr, o: Obj, work: seq<Val>)
    requires |w.seen| == |r.table| && r.dests != [] && r.record && TableOk(r) && ShapesOk(h, w, r)
    requires a in h && SameShape(h[a], o) && TableOk(Allocate(r, o))
    ensures ShapesOk(h, Writer(work, w.seen + [a]), Allocate(r, o))
  {
    var r', b := Allocate(r, o), r.dest + 1;
    assert forall k :: 0 <= k < |r.table| ==> r'.table[k] == r.table[k] && r.table[k] != b;
  }

  lemma AllocatedDest(r: Reader, o: Obj, j: nat)
    requires r.dests != [] && j < |Allocate(r, o).dests| && DestsOk(r) && r.dest + 1 !in r.mem
    ensures var n, d := |Children(o)|, Allocate(r, o).dests[j];
      && (0 < j <= n ==> d == Field(r.dest + 1, j - 1))
      && (j == 0 || n < j ==> d == r.dests[if j == 0 then 0 else j - n] && d != Field(r.dest + 1, 0))
      && SlotOk(Allocate(r, o), d) && (d.Field? && d.a == r.dest + 1 ==> 0 < j <= n)
  {
    var n := |Children(o)|;
    assert SlotOk(r, r.dests[if 0 < j <= n then 0 else if j == 0 then 0 else j - n]);
  }

  lemma AllocateDests(r: Reader, o: Obj)
    requires r.dests != [] && DestsOk(r) && r.dest + 1 !in r.mem
    ensures DestsOk(Allocate(r, o))
  {
    var r' := Allocate(r, o);
    forall j | 0 <= j < |r'.dests| ensures SlotOk(r', r'.dests[j]) {
      AllocatedDest(r, o, j);
    }
    forall i, j | 0 <= i < j < |r'.dests| ensures r'.dests[i] != r'.dests[j] {
      AllocatedDest(r, o, i);
      AllocatedDest(r, o, j);
    }
  }

  lemma AllocateFields(h: Heap, w: Writer, r: Reader, a: Addr, o: Obj)
    requires |w.seen| == |r.table| && |w.work| == |r.dests| && w.work != [] && r.record
    requires TableOk(r) && ShapesOk(h, w, r) && FieldsOk(h, w, r)
    requires a in h && a !in w.seen && SameShape(h[a], o)
    requires TableOk(Allocate(r, o))
    requires ShapesOk(h, Writer([w.work[0]] + Children(h[a]) + w.work[1..], w.seen + [a]), Allocate(r, o))
    ensures FieldsOk(h, Writer([w.work[0]] + Children(h[a]) + w.work[1..], w.seen + [a]), Allocate(r, o))
  {
    var n, b := |Children(h[a])|, r.dest + 1;
    var w', r' := Writer([w.work[0]] + Children(h[a]) + w.work[1..], w.seen + [a]), Allocate(r, o);
    forall k: nat, i: nat | k < |w'.seen| && i < |Children(h[w'.seen[k]])| ensures FieldOk(h, w', r', k, i) {
      if k < |w.seen| {
        assert FieldOk(h, w, r, k, i);
        assert w'.seen[k] == w.seen[k] && r'.table[k] == r.table[k] && r.table[k] != b;
        ServedAllocate(h, w, r, a, o, Field(r.table[k], i), Children(h[w.seen[k]])[i], Children(r.mem[r.table[k]])[i]);
      } else {
        assert r'.dests[1 + i] == Field(b, i) && w'.work[1 + i] == Children(h[a])[i];
      }
    }
  }

  /** A new object joins both sides, its fields pending right after the current value. */
  lemma AllocateInStep(h: Heap, v0: Val, w: Writer, r: Reader, a: Addr, o: Obj)
    requires InStep(h, v0, w, r) && w.work != [] && a in h && a !in w.seen && SameShape(h[a], o)
    ensures InStep(h, v0, Writer([w.work[0]] + Children(h[a]) + w.work[1..], w.seen + [a]), Allocate(r, o))
  {
    assert r.dest + 1 !in r.mem;
    AllocateTable(r, o);
    AllocateShapes(h, w, r, a, o, [w.work[0]] + Children(h[a]) + w.work[1..]);
    AllocateDests(r, o);
    AllocateFields(h, w, r, a, o);
    ServedAllocate(h, w, r, a, o, Root, v0, r.root);
  }

  lemma BlankShape(o: Obj)
    ensures SameShape(o, Blank(ItemOf(o))) && Wosize(Blank(ItemOf(o))) == Wosize(o)
  {
  }

  lemma {:induction false} IndexOfLast(s: seq<Addr>, a: Addr)
    requires a !in s
    ensures IndexOf(s + [a], a) == |s|
  {
    if s != [] {
      assert (s + [a])[1..] == s[1..] + [a];
      IndexOfLast(s[1..], a);
    }
  }

  lemma LastImage(seen: seq<Addr>, table: seq<Addr>, a: Addr, b: Addr)
    requires a !in seen && |seen| == |table|
    ensures Image(seen + [a], table + [b], Ptr(a)) == Some(Ptr(b))
  {
    IndexOfLast(seen, a);
    assert (seen + [a])[|seen|] == a;
  }

  lemma NewObjectInStep(h: Heap, v0: Val, w: Writer, r: Reader, a: Addr, o: Obj)
    requires InStep(h, v0, w, r) && w.work != [] && w.work[0] == Ptr(a) && a in h && a !in w.seen
    requires SameShape(h[a], o)
    ensures InStep(h, v0, Writer(([w.work[0]] + Children(h[a]) + w.work[1..])[1..], w.seen + [a]),
                   Fill(Allocate(r, o), Ptr(r.dest + 1)))
  {
    AllocateInStep(h, v0, w, r, a, o);
    var w1, r1 := Writer([w.work[0]] + Children(h[a]) + w.work[1..], w.seen + [a]), Allocate(r, o);
    LastImage(w.seen, r.table, a, r.dest + 1);
    FillInStep(h, v0, w1, r1, Ptr(r.dest + 1));
  }

  /** The value at hand needs no new object. */
  ghost predicate IsLeaf(w: Writer)
    requires w.work != []
  {
    w.work[0].Ptr? ==> w.work[0].a in w.seen
  }

  lemma LeafStep(h: Heap, w: Writer, r: Reader)
    requires ValsOk(h, w.work) && w.work != [] && r.dests != [] && |w.seen| == |r.table| && IsLeaf(w)
    ensures WriteStep(h, w).1 == w.(work := w.work[1..])
    ensures Image(w.seen, r.table, w.work[0]).Some?
    ensures ReadStep(WriteStep(h, w).0, r) == Some(Fill(r, Image(w.seen, r.table, w.work[0]).value))
  {
  }

  lemma ObjectStep(h: Heap, w: Writer, r: Reader)
    requires HeapOk(h) && ValsOk(h, w.work) && w.work != [] && r.dests != [] && !IsLeaf(w)
    ensures var a := w.work[0].a;
      && a in h
      && WriteStep(h, w).1 == Writer(([w.work[0]] + Children(h[a]) + w.work[1..])[1..], w.seen + [a])
      && ReadStep(WriteStep(h, w).0, r) == Some(Fill(Allocate(r, Blank(ItemOf(h[a]))), Ptr(r.dest + 1)))
  {
    var a := w.work[0].a;
    assert ValOk(h, w.work[0]);
    assert ObjOk(h, h[a]);
    assert ([w.work[0]] + Children(h[a]) + w.work[1..])[1..] == Children(h[a]) + w.work[1..];
  }

  /** One turn of the writer's loop and one of the reader's, on the item it wrote. */
  lemma StepInStep(h: Heap, v0: Val, w: Writer, r: Reader)
    requires HeapOk(h) && ValsOk(h, w.work) && InStep(h, v0, w, r) && w.work != []
    ensures ReadStep(WriteStep(h, w).0, r).Some?
    ensures InStep(h, v0, WriteStep(h, w).1, ReadStep(WriteStep(h, w).0, r).value)
  {
    if IsLeaf(w) {
      LeafStep(h, w, r);
      FillInStep(h, v0, w, r, Image(w.seen, r.table, w.work[0]).value);
    } else {
      ObjectStep(h, w, r);
      BlankShape(h[w.work[0].a]);
      NewObjectInStep(h, v0, w, r, w.work[0].a, Blank(ItemOf(h[w.work[0].a])));
    }
  }

  // -------------------------------------------------------------- accounting

  /** The words that the objects of `seen` take, headers included (size_64). */
  ghost function Words(h: Heap, seen: seq<Addr>): nat
    requires forall k :: 0 <= k < |seen| ==> seen[k] in h
  {
    if seen == [] then 0
    else Words(h, seen[..|seen| - 1]) + 1 + Wosize(h[seen[|seen| - 1]])
  }

  lemma StepWords(h: Heap, w: Writer, r: Reader)
    requires HeapOk(h) && WriterOk(h, w) && w.work != [] && r.dests != [] && |w.seen| == |r.table|
    requires r.dest == Words(h, w.seen) && ReadStep(WriteStep(h, w).0, r).Some? && WriterOk(h, WriteStep(h, w).1)
    ensures ReadStep(WriteStep(h, w).0, r).value.dest == Words(h, WriteStep(h, w).1.seen)
  {
    if IsLeaf(w) {
      LeafStep(h, w, r);
    } else {
      ObjectStep(h, w, r);
      var a := w.work[0].a;
      BlankShape(h[a]);
      assert (w.seen + [a])[..|w.seen|] == w.seen;
    }
  }

  // --------------------------------------------------------------- round trip

  /** The graph at `root` in `mem` is the one at `v0` in `h`: `seen` and `table` list
      corresponding objects, which agree field by field, and nothing else is in memory. */
  ghost predicate Isomorphic(h: Heap, v0: Val, seen: seq<Addr>, mem: Heap, table: seq<Addr>, root: Val) {
    && |seen| == |table|
    && (forall k, l :: 0 <= k < l < |seen| ==> seen[k] != seen[l] && table[k] != table[l])
    && (forall k :: 0 <= k < |table| ==> table[k] in mem) && |mem| == |table|
    && Image(seen, table, v0) == Some(root)
    && (forall k :: 0 <= k < |seen| ==> seen[k] in h && SameShape(h[seen[k]], mem[table[k]]))
    && (forall k, i :: 0 <= k < |seen| && 0 <= i < |Children(h[seen[k]])| ==>
          Image(seen, table, Children(h[seen[k]])[i]) == Some(Children(mem[table[k]])[i]))
  }

  lemma DoneIsomorphic(h: Heap, v0: Val, w: Writer, r: Reader)
    requires WriterOk(h, w) && InStep(h, v0, w, r) && w.work == []
    ensures Isomorphic(h, v0, w.seen, r.mem, r.table, r.root)
  {
    forall k: nat, i: nat | k < |w.seen| && i < |Children(h[w.seen[k]])|
      ensures Image(w.seen, r.table, Children(h[w.seen[k]])[i]) == Some(Children(r.mem[r.table[k]])[i])
    {
      assert FieldOk(h, w, r, k, i);
    }
  }

  /** The reader's outcome on the items of `w` describes what the writer walked. */
  ghost predicate Rebuilds(h: Heap, v0: Val, w: Writer, r: Reader)
    requires HeapOk(h) && WriterOk(h, w)
  {
    var out, seen := Read(Walk(h, w).0, r), Walk(h, w).1;
    && out.Some? && (forall k :: 0 <= k < |seen| ==> seen[k] in h)
    && Isomorphic(h, v0, seen, out.value.mem, out.value.table, out.value.root)
    && out.value.dest == Words(h, seen)
  }

  lemma WalkStep(h: Heap, v0: Val, w: Writer, r: Reader)
    requires HeapOk(h) && WriterOk(h, w) && w.work != [] && r.dests != []
    requires WriterOk(h, WriteStep(h, w).1) && ReadStep(WriteStep(h, w).0, r).Some?
    requires Rebuilds(h, v0, WriteStep(h, w).1, ReadStep(WriteStep(h, w).0, r).value)
    ensures Rebuilds(h, v0, w, r)
  {
    var tail := Walk(h, WriteStep(h, w).1);
    assert Walk(h, w) == ([WriteStep(h, w).0] + tail.0, tail.1);
    assert Walk(h, w).0[1..] == tail.0;
  }

  lemma {:induction false} RunInStep(h: Heap, v0: Val, w: Writer, r: Reader)
    requires HeapOk(h) && WriterOk(h, w) && InStep(h, v0, w, r) && r.dest == Words(h, w.seen)
    ensures Rebuilds(h, v0, w, r)
    decreases |h.Keys - Elems(w.seen)|, |w.work|
  {
    if w.work == [] {
      DoneIsomorphic(h, v0, w, r);
    } else {
      WriteStepOk(h, w);
      StepInStep(h, v0, w, r);
      StepWords(h, w, r);
      StepSmaller(h, w);
      RunInStep(h, v0, WriteStep(h, w).1, ReadStep(WriteStep(h, w).0, r).value);
      WalkStep(h, v0, w, r);
    }
  }

  /** The traversal ends: each turn emits an object or shortens the work. */
  lemma StepSmaller(h: Heap, w: Writer)
    requires ValsOk(h, w.work) && w.work != []
    ensures var w' := WriteStep(h, w).1;
      || |h.Keys - Elems(w'.seen)| < |h.Keys - Elems(w.seen)|
      || (w'.seen == w.seen && |w'.work| < |w.work|)
  {
    assert ValOk(h, w.work[0]);
    if !IsLeaf(w) {
      UnseenShrinks(h, w.seen, w.work[0].a);
    }
  }

  const START := Reader([Root], map[], true, [], 0, Long(0))

  /** Items written for `v` read back as an isomorphic graph, in exactly as many words
      and objects as the writer counted. */
  lemma GraphRoundTrip(h: Heap, v: Val)
    requires HeapOk(h) && ValOk(h, v)
    ensures Rebuilds(h, v, Writer([v], []), START)
  {
    assert Served(Writer([v], []), START, Root, v, START.root) by {
      assert START.dests[0] == Root;
    }
    RunInStep(h, v, Writer([v], []), START);
  }

  // ----------------------------------------------------- what is marshalled

  ghost predicate Links(h: Heap, a: Addr, b: Addr) {
    a in h && b in h && Ptr(b) in Children(h[a])
  }

  /** `path` leads from `v` through fields of objects. */
  ghost predicate IsPath(h: Heap, v: Val, path: seq<Addr>) {
    && path != [] && v == Ptr(path[0]) && path[0] in h
    && (forall k :: 0 < k < |path| ==> Links(h, path[k - 1], path[k]))
  }

  ghost predicate Reachable(h: Heap, v: Val, a: Addr) {
    exists path :: IsPath(h, v, path) && path[|path| - 1] == a
  }

  lemma ReachableChild(h: Heap, v: Val, a: Addr, b: Addr)
    requires Reachable(h, v, a) && Links(h, a, b)
    ensures Reachable(h, v, b)
  {
    var path :| IsPath(h, v, path) && path[|path| - 1] == a;
    var longer := path + [b];
    assert forall k :: 0 <= k < |path| ==> longer[k] == path[k];
    assert IsPath(h, v, longer) && longer[|longer| - 1] == b;
  }

  ghost predicate AllReachable(h: Heap, v: Val, w: Writer) {
    && (forall k :: 0 <= k < |w.seen| ==> Reachable(h, v, w.seen[k]))
    && (forall j :: 0 <= j < |w.work| && w.work[j].Ptr? ==> Reachable(h, v, w.work[j].a))
  }

  lemma StepReachable(h: Heap, v: Val, w: Writer)
    requires HeapOk(h) && WriterOk(h, w) && AllReachable(h, v, w) && w.work != []
    ensures AllReachable(h, v, WriteStep(h, w).1)
  {
    var w' := WriteStep(h, w).1;
    assert ValOk(h, w.work[0]);
    if !IsLeaf(w) {
      var a := w.work[0].a;
      assert ObjOk(h, h[a]);
      forall j | 0 <= j < |w'.work| && w'.work[j].Ptr? ensures Reachable(h, v, w'.work[j].a) {
        var n := |Children(h[a])|;
        if j < n {
          assert ValOk(h, Children(h[a])[j]);
          ReachableChild(h, v, a, w'.work[j].a);
        } else {
          assert w'.work[j] == w.work[j - n + 1];
        }
      }
    } else {
      assert forall j :: 0 <= j < |w'.work| ==> w'.work[j] == w.work[j + 1];
    }
  }

  lemma {:induction false} WalkReachable(h: Heap, v: Val, w: Writer)
    requires HeapOk(h) && WriterOk(h, w) && AllReachable(h, v, w)
    ensures forall k :: 0 <= k < |Walk(h, w).1| ==> Reachable(h, v, Walk(h, w).1[k])
    decreases |h.Keys - Elems(w.seen)|, |w.work|
  {
    if w.work != [] {
      WriteStepOk(h, w);
      StepSmaller(h, w);
      StepReachable(h, v, w);
      WalkReachable(h, v, WriteStep(h, w).1);
    }
  }

  lemma {:induction false} PathSeen(h: Heap, v: Val, seen: seq<Addr>, mem: Heap, table: seq<Addr>, root: Val,
                                    path: seq<Addr>)
    requires Isomorphic(h, v, seen, mem, table, root) && IsPath(h, v, path)
    ensures path[|path| - 1] in seen
    decreases |path|
  {
    if |path| > 1 {
      var last := |path| - 1;
      assert forall k :: 0 <= k < last ==> path[..last][k] == path[k];
      PathSeen(h, v, seen, mem, table, root, path[..last]);
      assert Links(h, path[last - 1], path[last]);
      var k := IndexOf(seen, path[last - 1]);
      var i :| 0 <= i < |Children(h[seen[k]])| && Children(h[seen[k]])[i] == Ptr(path[last]);
      assert Image(seen, table, Children(h[seen[k]])[i]).Some?;
    }
  }

  /** The objects marshalled are exactly those reachable from the value. */
  lemma ExactlyReachable(h: Heap, v: Val, a: Addr)
    requires HeapOk(h) && ValOk(h, v)
    ensures a in Walk(h, Writer([v], [])).1 <==> Reachable(h, v, a)
  {
    var w := Writer([v], []);
    GraphRoundTrip(h, v);
    if v.Ptr? {
      assert IsPath(h, v, [v.a]) && [v.a][|[v.a]| - 1] == v.a;
    }
    WalkReachable(h, v, w);
    var seen, out := Walk(h, w).1, Read(Walk(h, w).0, START).value;
    if Reachable(h, v, a) {
      var path :| IsPath(h, v, path) && path[|path| - 1] == a;
      PathSeen(h, v, seen, out.mem, out.table, out.root, path);
    }
  }

  // ------------------------------------------------------- where objects are put

  /** The words of an object, its header before them, end where those of the next one
      begin at the earliest, and all of them before the bump pointer. */
  ghost predicate Placed(r: Reader) {
    && (forall a :: a in r.mem ==> 0 < a && a + Wosize(r.mem[a]) <= r.dest)
    && (forall a, b :: a in r.mem && b in r.mem && a < b ==> a + Wosize(r.mem[a]) < b)
  }

  lemma StepPlaced(t: Item, r: Reader)
    requires r.dests != [] && Placed(r) && ReadStep(t, r).Some?
    ensures Placed(ReadStep(t, r).value)
  {
    var r1, v := StepFills(t, r);
    if r1 != r {
      AllocatePlaced(r, Blank(t));
    }
    FillPlaced(r1, v);
  }

  /** Every step fills one destination, after it has allocated or not. */
  lemma StepFills(t: Item, r: Reader) returns (r1: Reader, v: Val)
    requires r.dests != [] && ReadStep(t, r).Some?
    ensures r1.dests != [] && ReadStep(t, r).value == Fill(r1, v)
    ensures r1 == r || (!t.IntItem? && !t.SharedItem? && r1 == Allocate(r, Blank(t)))
  {
    if t.IntItem? {
      r1, v := r, Long(t.n);
    } else if t.SharedItem? {
      r1, v := r, Ptr(r.table[|r.table| - t.distance]);
    } else if t.BlockItem? && t.size == 0 {
      r1, v := r, Atom(t.tag);
    } else {
      r1, v := Allocate(r, Blank(t)), Ptr(r.dest + 1);
    }
  }

  lemma AllocatePlaced(r: Reader, o: Obj)
    requires r.dests != [] && Placed(r)
    ensures Placed(Allocate(r, o))
  {
  }

  lemma FillPlaced(r: Reader, v: Val)
    requires r.dests != [] && Placed(r)
    ensures Placed(Fill(r, v))
  {
  }
}
