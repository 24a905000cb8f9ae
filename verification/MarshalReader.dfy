/**
  The reader of `runtime/intern.c` as it runs, the header that goes before the data, and
  whole messages: what marshalling writes, header included, is read back.
 */
module MarshalReader {

  import opened Common
  import opened MarshalFormat
  import opened MarshalGraph
  import opened MarshalStream
  import opened MarshalTree
  import opened MarshalWriter
  import PositionTable
  import opened RunStack

  // ------------------------------------------------------------------- the reader

  /** The state before anything is read; the object table is there when the header
      announces objects. */
  function Initial(numObjects: nat): Reader {
    Reader([Root], map[], numObjects > 0, [], 0, Long(0))
  }

  /** Reading goes through a state with more destinations pending than the stack can have
      entries for. */
  ghost predicate Crowded(src: seq<byte>, r: Reader)
    decreases |src|
  {
    || |r.dests| >= STACK_ENTRIES
    || (r.dests != [] && ReadItem(src).Some? && |ReadItem(src).value.1| < |src|
        && ReadStep(ReadItem(src).value.0, r).Some?
        && Crowded(ReadItem(src).value.1, ReadStep(ReadItem(src).value.0, r).value))
  }

  datatype ReadOutcome = Completed | Malformed | Overflown

  class Intern {
    var src: seq<byte>
    var mem: Heap
    var record: bool
    var table: seq<Addr>
    var dest: nat
    var root: Val

    /** The state as a value, with the given destinations pending. */
    ghost function View(dests: seq<Slot>): Reader
      reads this
    {
      Reader(dests, mem, record, table, dest, root)
    }

    constructor (src: seq<byte>, numObjects: nat)
      ensures this.src == src && View([Root]) == Initial(numObjects)
    {
      this.src, mem, record, table, dest, root := src, map[], numObjects > 0, [], 0, Long(0);
    }

    /** intern_alloc_obj, and the entry in the object table. */
    method AllocObj(o: Obj, ghost s: Slot, ghost rest: seq<Slot>) returns (a: Addr)
      modifies this`mem, this`table, this`dest
      ensures a == old(dest) + 1
      ensures View([s] + FieldSlots(a, |Children(o)|) + rest) == Allocate(old(View([s] + rest)), o)
    {
      a := dest + 1;
      mem := mem[a := o];
      if record {
        table := table + [a];
      }
      dest := dest + 1 + Wosize(o);
      assert ([s] + rest)[0] == s && ([s] + rest)[1..] == rest;
    }

    /** *dest = v */
    method StoreAt(s: Slot, v: Val, ghost rest: seq<Slot>)
      modifies this`mem, this`root
      ensures View(rest) == Fill(old(View([s] + rest)), v)
    {
      assert ([s] + rest)[0] == s && ([s] + rest)[1..] == rest;
      match s
      case Root =>
        root := v;
      case Field(a, i) =>
        if a in mem && mem[a].Block? && i < |mem[a].fields| {
          mem := mem[a := mem[a].(fields := mem[a].fields[i := v])];
        }
    }

    /** The value of one item, allocated if need be, and stored; `n` fields are to be
        read next. False for a reference to no object. */
    method Interpret(t: Item, s: Slot, ghost rest: seq<Slot>) returns (ok: bool, a: Addr, n: nat)
      modifies this`mem, this`table, this`dest, this`root
      ensures ok == ReadStep(t, old(View([s] + rest))).Some?
      ensures ok ==> View(FieldSlots(a, n) + rest) == ReadStep(t, old(View([s] + rest))).value
    {
      ok, a, n := true, 0, 0;
      assert FieldSlots(a, n) + rest == rest;
      if t.IntItem? {
        StoreAt(s, Long(t.n), rest);
      } else if t.SharedItem? {
        ok := 1 <= t.distance <= |table|;
        if ok {
          StoreAt(s, Ptr(table[|table| - t.distance]), rest);
        }
      } else if t.BlockItem? && t.size == 0 {
        StoreAt(s, Atom(t.tag), rest);
      } else {
        var o := Blank(t);
        a := AllocObj(o, s, rest);
        n := |Children(o)|;
        Associate([s], FieldSlots(a, n), rest);
        StoreAt(s, Ptr(a), FieldSlots(a, n) + rest);
      }
    }

    /** One turn of intern_rec: an item is read and stored at `s`, and `n` fields are to
        be read next. False for a malformed item. */
    method ReadNext(s: Slot, ghost rest: seq<Slot>) returns (ok: bool, a: Addr, n: nat)
      modifies this
      ensures !ok ==> ReadStream(old(src), old(View([s] + rest))) == None
      ensures ok ==>
        && |src| < |old(src)|
        && ReadStream(old(src), old(View([s] + rest))) == ReadStream(src, View(FieldSlots(a, n) + rest))
        && (Crowded(src, View(FieldSlots(a, n) + rest)) ==> Crowded(old(src), old(View([s] + rest))))
    {
      a, n := 0, 0;
      var p := ReadItem(src);
      if p == None {
        return false, 0, 0;
      }
      ReadItemConsumes(src);
      src := p.value.1;
      ok, a, n := Interpret(p.value.0, s, rest);
    }

    /** intern_rec: reads the whole value, or stops at the first malformed item, or when
        too much is pending for the stack. */
    method InternRec() returns (outcome: ReadOutcome)
      modifies this
      ensures outcome == Malformed ==> ReadStream(old(src), old(View([Root]))) == None
      ensures outcome == Completed ==> ReadStream(old(src), old(View([Root]))) == Some(View([]))
      ensures outcome == Overflown ==> Crowded(old(src), old(View([Root])))
    {
      var stack: seq<seq<Slot>>, limit: nat := [[Root]], STACK_INIT_SIZE;
      ghost var dests := [Root];
      ghost var all, crowded := ReadStream(src, View([Root])), Crowded(src, View([Root]));
      assert Flat(stack) == [Root] + Flat(stack[1..]) == [Root];
      assert Limit(limit, 0);
      while stack != []
        invariant RunsOk(stack) && dests == Flat(stack) && LimitOk(limit)
        invariant ReadStream(src, View(dests)) == all && (Crowded(src, View(dests)) ==> crowded)
        decreases |src|
      {
        PopFlat(stack);
        var s := stack[0][0];
        stack := Pop(stack);
        ghost var rest := Flat(stack);
        assert dests == [s] + rest;
        var read, a, n := ReadNext(s, rest);
        if !read {
          return Malformed;
        }
        if n > 0 {
          var room := Room(|stack|, limit);
          RoomOk(|stack|, limit);
          if room == None {
            FlatLength(stack);
            return Overflown;
          }
          limit := room.value;
        }
        PushFlat(FieldSlots(a, n), stack);
        stack := Push(FieldSlots(a, n), stack);
        dests := Flat(stack);
      }
      outcome := Completed;
    }
  }

  // ------------------------------------------------------------------- the header

  const MAGIC_SMALL := 0x8495_A6BE
  const MAGIC_BIG := 0x8495_A6BF
  const LIMIT32 := 0x1_0000_0000
  const LIMIT64 := 0x1_0000_0000_0000_0000

  datatype Header = Header(headerLen: nat, dataLen: nat, numObjects: nat, whsize: nat)

  /** The end of extern_value; None when the flag COMPAT_32 forbids the big format. */
  function WriteMessageHeader(compat32: bool, len: nat, objects: nat, size32: nat, size64: nat): Option<seq<byte>> {
    if len >= LIMIT32 || size32 >= LIMIT32 || size64 >= LIMIT32 then
      if compat32 then None
      else Some(Store(4, MAGIC_BIG) + Store(4, 0) + Store(8, len) + Store(8, objects) + Store(8, size64))
    else Some(Store(4, MAGIC_SMALL) + Store(4, len) + Store(4, objects) + Store(4, size32) + Store(4, size64))
  }

  /** The number in k bytes from position i on. */
  function NumberAt(src: seq<byte>, i: nat, k: nat): nat
    requires i + k <= |src|
  {
    FromBigEndian(src[i..i + k])
  }

  /** caml_parse_header, and what follows the header. */
  function ParseHeader(src: seq<byte>): Option<(Header, seq<byte>)> {
    if |src| < 20 then None
    else
      var magic := NumberAt(src, 0, 4);
      if magic == MAGIC_SMALL then
        Some((Header(20, NumberAt(src, 4, 4), NumberAt(src, 8, 4), NumberAt(src, 16, 4)), src[20..]))
      else if magic == MAGIC_BIG && |src| >= 32 then
        Some((Header(32, NumberAt(src, 8, 8), NumberAt(src, 16, 8), NumberAt(src, 24, 8)), src[32..]))
      else None
  }

  /** Where the parts of five in a row are found. */
  lemma FiveParts(a: seq<byte>, b: seq<byte>, c: seq<byte>, d: seq<byte>, e: seq<byte>, rest: seq<byte>)
    ensures var s, i := a + b + c + d + e + rest, |a| + |b|;
      && |a + b + c + d + e| == i + |c| + |d| + |e|
      && s[..|a|] == a && s[|a|..i] == b && s[i..i + |c|] == c && s[i + |c|..i + |c| + |d|] == d
      && s[i + |c| + |d|..i + |c| + |d| + |e|] == e && s[i + |c| + |d| + |e|..] == rest
  {
    assert a + b + c + d + e + rest == a + b + c + (d + e + rest);
  }

  /** Either header is read as what was written. */
  lemma MessageHeaderRoundTrip(compat32: bool, len: nat, objects: nat, size32: nat, size64: nat, rest: seq<byte>)
    requires len < LIMIT64 && objects <= size64 < LIMIT64
    ensures match WriteMessageHeader(compat32, len, objects, size32, size64)
      case None => compat32 && (len >= LIMIT32 || size32 >= LIMIT32 || size64 >= LIMIT32)
      case Some(s) => ParseHeader(s + rest) == Some((Header(|s|, len, objects, size64), rest))
  {
    PowValues();
    if len >= LIMIT32 || size32 >= LIMIT32 || size64 >= LIMIT32 {
      BigHeaderRoundTrip(len, objects, size64, rest);
    } else {
      SmallHeaderRoundTrip(len, objects, size32, size64, rest);
    }
  }

  lemma SmallHeaderRoundTrip(len: nat, objects: nat, size32: nat, size64: nat, rest: seq<byte>)
    requires len < Pow256(4) && objects < Pow256(4) && size32 < Pow256(4) && size64 < Pow256(4)
    requires MAGIC_SMALL < Pow256(4)
    ensures var s := Store(4, MAGIC_SMALL) + Store(4, len) + Store(4, objects) + Store(4, size32) + Store(4, size64);
      |s| == 20 && ParseHeader(s + rest) == Some((Header(20, len, objects, size64), rest))
  {
    FiveParts(Store(4, MAGIC_SMALL), Store(4, len), Store(4, objects), Store(4, size32), Store(4, size64), rest);
    StoreUnsigned(4, MAGIC_SMALL);
    StoreUnsigned(4, len);
    StoreUnsigned(4, objects);
    StoreUnsigned(4, size64);
  }

  lemma BigHeaderRoundTrip(len: nat, objects: nat, size64: nat, rest: seq<byte>)
    requires len < Pow256(8) && objects < Pow256(8) && size64 < Pow256(8) && MAGIC_BIG < Pow256(4)
    ensures var s := Store(4, MAGIC_BIG) + Store(4, 0) + Store(8, len) + Store(8, objects) + Store(8, size64);
      |s| == 32 && ParseHeader(s + rest) == Some((Header(32, len, objects, size64), rest))
  {
    FiveParts(Store(4, MAGIC_BIG), Store(4, 0), Store(8, len), Store(8, objects), Store(8, size64), rest);
    StoreUnsigned(4, MAGIC_BIG);
    StoreUnsigned(8, len);
    StoreUnsigned(8, objects);
    StoreUnsigned(8, size64);
  }

  // --------------------------------------------------------- what the header counts

  /** The words of the items of a traversal are those of the objects it emits. */
  lemma {:induction false} WalkWords(h: Heap, w: Writer)
    requires HeapOk(h) && WriterOk(h, w)
    ensures forall k :: 0 <= k < |Walk(h, w).1| ==> Walk(h, w).1[k] in h
    ensures Words64(Walk(h, w).0) + Words(h, w.seen) == Words(h, Walk(h, w).1)
    decreases |h.Keys - Elems(w.seen)|, |w.work|
  {
    if w.work != [] {
      WriteStepOk(h, w);
      StepSmaller(h, w);
      var (t, w') := WriteStep(h, w);
      WalkWords(h, w');
      WordsPrepend(t, Walk(h, w').0);
      StepItemWords(h, w);
    }
  }

  lemma StepItemWords(h: Heap, w: Writer)
    requires HeapOk(h) && WriterOk(h, w) && w.work != [] && WriterOk(h, WriteStep(h, w).1)
    ensures ItemWords(WriteStep(h, w).0) + Words(h, w.seen) == Words(h, WriteStep(h, w).1.seen)
  {
    assert ValOk(h, w.work[0]);
    if !IsLeaf(w) {
      var a := w.work[0].a;
      assert ObjOk(h, h[a]);
      BlankShape(h[a]);
      assert (w.seen + [a])[..|w.seen|] == w.seen;
    }
  }

  lemma {:induction false} ObjectsFit(h: Heap, seen: seq<Addr>)
    requires forall k :: 0 <= k < |seen| ==> seen[k] in h
    ensures |seen| <= Words(h, seen)
    decreases |seen|
  {
    if seen != [] {
      ObjectsFit(h, seen[..|seen| - 1]);
    }
  }

  lemma StepDest(t: Item, r: Reader)
    requires r.dests != [] && ReadStep(t, r).Some?
    ensures ReadStep(t, r).value.dest == r.dest + ItemWords(t)
  {
  }

  /** Without sharing, too, the reader allocates the words of the items. */
  lemma {:induction false} PlainDest(r: Reader, trees: seq<Tree>, whole: Tree)
    requires InStepPlain(r, trees, whole)
    ensures Read(ForestItems(trees), r).Some?
    ensures Read(ForestItems(trees), r).value.dest == r.dest + Words64(ForestItems(trees))
    decreases ForestWeight(trees)
  {
    if trees != [] {
      PlainStep(r, trees, whole);
      StepDest(HeadItem(trees[0]), r);
      ReadForestHead(trees, r);
      ForestHead(trees);
      WordsPrepend(HeadItem(trees[0]), ForestItems(Rest(trees)));
      PlainDest(ReadStep(HeadItem(trees[0]), r).value, Rest(trees), whole);
    }
  }

  lemma {:induction false} RereadItemsWords(items: seq<Item>)
    ensures Words64(RereadAll(items)) == Words64(items)
    decreases |items|
  {
    if items != [] {
      RereadItemsWords(items[1..]);
      WordsPrepend(items[0], items[1..]);
      WordsPrepend(Reread(items[0]), RereadAll(items[1..]));
      assert items == [items[0]] + items[1..];
    }
  }

  // -------------------------------------------------------------- whole messages

  /** The items of a value and the number of objects that get a position. */
  ghost function Content(h: Heap, rank: map<Addr, nat>, sharing: bool, v: Val): (seq<Item>, nat)
    requires HeapOk(h) && ValOk(h, v) && (sharing || Acyclic(h, rank))
  {
    if sharing then (Walk(h, Writer([v], [])).0, |Walk(h, Writer([v], [])).1|)
    else (TreeItems(Unfold(h, rank, v)), 0)
  }

  ghost function Message(compat32: bool, items: seq<Item>, objects: nat): Option<seq<byte>>
    requires ItemsOk(items)
  {
    var header := WriteMessageHeader(compat32, |WriteItems(items)|, objects, Words32(items), Words64(items));
    if header == None || (compat32 && !AllFit32(items)) then None else Some(header.value + WriteItems(items))
  }

  /** The data, or its size on either architecture, does not fit 32 bits. */
  ghost predicate TooBig32(items: seq<Item>)
    requires ItemsOk(items)
  {
    |WriteItems(items)| >= LIMIT32 || Words32(items) >= LIMIT32 || Words64(items) >= LIMIT32
  }

  lemma ContentOk(h: Heap, rank: map<Addr, nat>, sharing: bool, v: Val)
    requires HeapOk(h) && ValOk(h, v) && (sharing || Acyclic(h, rank))
    ensures ItemsOk(Content(h, rank, sharing, v).0)
    ensures Content(h, rank, sharing, v).1 <= Words64(Content(h, rank, sharing, v).0)
  {
    if sharing {
      var w := Writer([v], []);
      WalkItemsOk(h, w);
      WalkWords(h, w);
      ObjectsFit(h, Walk(h, w).1);
    } else {
      PlainRoundTrip(h, rank, v, []);
    }
  }

  /** caml_output_value: the message of a value, unless there are too many objects, too
      much is pending at once, or the flag COMPAT_32 forbids it. */
  method OutputValue(h: Heap, v: Val, sharing: bool, compat32: bool, ghost rank: map<Addr, nat>)
    returns (outcome: Outcome, message: Option<seq<byte>>)
    requires HeapOk(h) && ValOk(h, v) && (sharing || Acyclic(h, rank))
    ensures ItemsOk(Content(h, rank, sharing, v).0)
    ensures outcome == Done || outcome == Incompatible ==>
      message == Message(compat32, Content(h, rank, sharing, v).0, Content(h, rank, sharing, v).1)
    ensures message.Some? <==> outcome == Done
    ensures outcome == OutOfMemory ==> |h| + 1 >= PositionTable.MAX_OBJECTS
    ensures outcome == StackOverflow ==> TooDeep(h, sharing, v)
  {
    ContentOk(h, rank, sharing, v);
    var extern := new Extern(sharing, compat32);
    message := None;
    outcome := extern.ExternRec(h, v, rank);
    if outcome == Done {
      var header := WriteMessageHeader(compat32, |extern.out|, extern.objCounter, extern.size32, extern.size64);
      if header == None {
        outcome := Incompatible;
      } else {
        message := Some(header.value + extern.out);
      }
    }
  }

  /** What a message holds: header, then data. */
  function Input(src: seq<byte>): Option<Reader> {
    var p := ParseHeader(src);
    if p == None then None else ReadStream(p.value.1, Initial(p.value.0.numObjects))
  }

  /** The objects read from any input do not overlap, and end at the bump pointer. */
  lemma InputPlaced(src: seq<byte>)
    requires Input(src).Some?
    ensures Placed(Input(src).value)
  {
    var p := ParseHeader(src).value;
    StreamPlaced(p.1, Initial(p.0.numObjects));
  }

  /** caml_input_value */
  method InputValue(src: seq<byte>) returns (outcome: ReadOutcome, mem: Heap, root: Val)
    ensures outcome == Malformed ==> Input(src) == None
    ensures outcome == Completed ==> Input(src).Some? && mem == Input(src).value.mem && root == Input(src).value.root
    ensures outcome == Completed ==> Placed(Input(src).value)
    ensures outcome == Overflown ==> var p := ParseHeader(src);
      p.Some? && Crowded(p.value.1, Initial(p.value.0.numObjects))
  {
    outcome, mem, root := Malformed, map[], Long(0);
    var p := ParseHeader(src);
    if p != None {
      var intern := new Intern(p.value.1, p.value.0.numObjects);
      outcome := intern.InternRec();
      mem, root := intern.mem, intern.root;
      if outcome == Completed {
        InputPlaced(src);
      }
    }
  }

  /** A value that is not a pointer reads the same with or without an object table. */
  lemma AtomRead(h: Heap, v: Val, rest: seq<byte>)
    requires HeapOk(h) && ValOk(h, v) && !v.Ptr? && ItemsOk(Walk(h, Writer([v], [])).0)
    ensures var data := WriteItems(Walk(h, Writer([v], [])).0);
      ReadStream(data + rest, Initial(0)) == Some(Initial(0).(dests := [], root := v))
      && ReadStream(data + rest, START) == Some(START.(dests := [], root := v))
  {
    var w := Writer([v], []);
    var t := WriteStep(h, w).0;
    assert Walk(h, w).0 == [t];
    assert RereadAll([t]) == [Reread(t)] + RereadAll([]) == [t];
    StreamItems([t], rest, START);
    StreamItems([t], rest, Initial(0));
  }

  /** The message `m`, whatever follows it, is read back as an isomorphic graph, in exactly
      the words and table entries that its header announces. */
  ghost predicate ReadsBack(h: Heap, v: Val, seen: seq<Addr>, m: seq<byte>, tail: seq<byte>) {
    && ParseHeader(m + tail).Some? && Input(m + tail).Some?
    && var (header, out) := (ParseHeader(m + tail).value.0, Input(m + tail).value);
    && Isomorphic(RereadHeap(h), v, seen, out.mem, out.table, out.root)
    && out.dest == header.whsize && |out.table| == header.numObjects && Placed(out)
    && header.headerLen + header.dataLen == |m|
  }

  lemma ParsedReadsBack(h: Heap, v: Val, items: seq<Item>, seen: seq<Addr>, header: seq<byte>, tail: seq<byte>)
    requires HeapOk(h) && ValOk(h, v) && ItemsOk(items) && (items, seen) == Walk(h, Writer([v], []))
    requires ParseHeader(header + (WriteItems(items) + tail)) ==
             Some((Header(|header|, |WriteItems(items)|, |seen|, Words64(items)), WriteItems(items) + tail))
    ensures ReadsBack(h, v, seen, header + WriteItems(items), tail)
  {
    var data := WriteItems(items);
    WalkWords(h, Writer([v], []));
    MarshalRoundTrip(h, v, tail);
    Associate(header, data, tail);
    if seen == [] {
      assert !v.Ptr?;
      AtomRead(h, v, tail);
    }
    InputPlaced(header + data + tail);
  }

  /** The message of the items is a header that announces them, and their bytes. */
  lemma Framed(compat32: bool, items: seq<Item>, objects: nat, tail: seq<byte>) returns (header: seq<byte>)
    requires ItemsOk(items) && |WriteItems(items)| < LIMIT64 && objects <= Words64(items) < LIMIT64
    ensures match Message(compat32, items, objects)
      case None => compat32 && (!AllFit32(items) || TooBig32(items))
      case Some(m) =>
        && m == header + WriteItems(items)
        && ParseHeader(header + (WriteItems(items) + tail)) ==
           Some((Header(|header|, |WriteItems(items)|, objects, Words64(items)), WriteItems(items) + tail))
  {
    var data := WriteItems(items);
    MessageHeaderRoundTrip(compat32, |data|, objects, Words32(items), Words64(items), data + tail);
    var written := WriteMessageHeader(compat32, |data|, objects, Words32(items), Words64(items));
    header := if written == None then [] else written.value;
  }

  /** A message with sharing, whatever follows it, is read back as an isomorphic graph. */
  lemma MessageRoundTrip(h: Heap, v: Val, compat32: bool, tail: seq<byte>)
    requires HeapOk(h) && ValOk(h, v) && ItemsOk(Walk(h, Writer([v], [])).0)
    requires |WriteItems(Walk(h, Writer([v], [])).0)| < LIMIT64 && Words64(Walk(h, Writer([v], [])).0) < LIMIT64
    ensures var (items, seen) := Walk(h, Writer([v], []));
      match Message(compat32, items, |seen|)
      case None => compat32 && (!AllFit32(items) || TooBig32(items))
      case Some(m) => ReadsBack(h, v, seen, m, tail)
  {
    var (items, seen) := Walk(h, Writer([v], []));
    WalkWords(h, Writer([v], []));
    ObjectsFit(h, seen);
    var header := Framed(compat32, items, |seen|, tail);
    if Message(compat32, items, |seen|).Some? {
      ParsedReadsBack(h, v, items, seen, header, tail);
    }
  }

  /** A message without sharing is read back as a value that unfolds to the same tree. */
  lemma PlainMessageRoundTrip(h: Heap, rank: map<Addr, nat>, v: Val, compat32: bool, tail: seq<byte>)
    requires HeapOk(h) && Acyclic(h, rank) && ValOk(h, v) && ItemsOk(TreeItems(Unfold(h, rank, v)))
    requires |WriteItems(TreeItems(Unfold(h, rank, v)))| < LIMIT64 && Words64(TreeItems(Unfold(h, rank, v))) < LIMIT64
    ensures match Message(compat32, TreeItems(Unfold(h, rank, v)), 0)
      case None => compat32 && (!AllFit32(TreeItems(Unfold(h, rank, v))) || TooBig32(TreeItems(Unfold(h, rank, v))))
      case Some(m) =>
        && ParseHeader(m + tail).Some? && Input(m + tail).Some?
        && var (header, out) := (ParseHeader(m + tail).value.0, Input(m + tail).value);
        && Represents(out.mem, out.root, RereadTree(Unfold(h, rank, v)))
        && out.dest == header.whsize && header.numObjects == 0 && header.headerLen + header.dataLen == |m|
        && Placed(out)
  {
    var tree := Unfold(h, rank, v);
    var items := TreeItems(tree);
    PlainRoundTrip(h, rank, v, tail);
    UnfoldOk(h, rank, v);
    TreeDest(tree, tail);
    var header := Framed(compat32, items, 0, tail);
    Associate(header, WriteItems(items), tail);
    if Message(compat32, items, 0).Some? {
      InputPlaced(header + WriteItems(items) + tail);
    }
  }

  lemma TreeDest(t: Tree, rest: seq<byte>)
    requires TreeOk(t) && ItemsOk(TreeItems(t)) && ReadStream(WriteItems(TreeItems(t)) + rest, PLAIN_START).Some?
    ensures ReadStream(WriteItems(TreeItems(t)) + rest, PLAIN_START).value.dest == Words64(TreeItems(t))
  {
    var u := RereadTree(t);
    RereadTreeOk(t);
    SingleTree(t);
    SingleTree(u);
    assert RereadForest([t]) == [u];
    RereadForestItems([t]);
    assert SlotDenotes(PLAIN_START, [u], Root, u) by {
      PendingDenotes(PLAIN_START, [u], 0);
    }
    PlainDest(PLAIN_START, [u], u);
    StreamItems(TreeItems(t), rest, PLAIN_START);
    RereadItemsWords(TreeItems(t));
  }
}
