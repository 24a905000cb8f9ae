/**
  The byte stream between the writer and the reader: the items of a traversal are
  written one after another, and the reader, which sees only bytes, takes the same
  items off it. With the graph theorem this gives the round trip of marshalling.
 */
module MarshalStream {

  import opened Common
  import opened MarshalFormat
  import opened MarshalGraph

  ghost predicate ItemsOk(items: seq<Item>) {
    forall i :: 0 <= i < |items| ==> ItemOk(items[i])
  }

  ghost function WriteItems(items: seq<Item>): seq<byte>
    requires ItemsOk(items)
  {
    if items == [] then [] else WriteItem(items[0]) + WriteItems(items[1..])
  }

  lemma {:induction false} WriteItemsAppend(items: seq<Item>, t: Item)
    requires ItemsOk(items) && ItemOk(t)
    ensures ItemsOk(items + [t]) && WriteItems(items + [t]) == WriteItems(items) + WriteItem(t)
  {
    if items == [] {
      assert [t][1..] == [] && WriteItems([t]) == WriteItem(t) + [];
    } else {
      WriteItemsAppend(items[1..], t);
      assert (items + [t])[1..] == items[1..] + [t];
    }
  }

  /** An item takes at least one byte, and leaves the rest of the input alone. */
  lemma ReadItemConsumes(src: seq<byte>)
    ensures ReadItem(src).Some? ==> |ReadItem(src).value.1| < |src|
  {
  }

  /** intern_rec on bytes. */
  function ReadStream(src: seq<byte>, r: Reader): Option<Reader>
    decreases |src|
  {
    if r.dests == [] then Some(r)
    else
      var p := ReadItem(src);
      if p.None? then None
      else
        var r1 := ReadStep(p.value.0, r);
        ReadItemConsumes(src);
        if r1.None? then None else ReadStream(p.value.1, r1.value)
  }

  /** The words and the table entries in use only grow, so that at no point of a
      successful run do they exceed what is in use at its end. */
  lemma {:induction false} StreamGrows(src: seq<byte>, r: Reader)
    requires ReadStream(src, r).Some?
    ensures r.dest <= ReadStream(src, r).value.dest && r.table <= ReadStream(src, r).value.table
    decreases |src|
  {
    if r.dests != [] {
      var p := ReadItem(src).value;
      ReadItemConsumes(src);
      StreamGrows(p.1, ReadStep(p.0, r).value);
    }
  }

  /** Whatever is read, the objects do not overlap. */
  lemma {:induction false} StreamPlaced(src: seq<byte>, r: Reader)
    requires Placed(r) && ReadStream(src, r).Some?
    ensures Placed(ReadStream(src, r).value)
    decreases |src|
  {
    if r.dests != [] {
      var p := ReadItem(src).value;
      ReadItemConsumes(src);
      StepPlaced(p.0, r);
      StreamPlaced(p.1, ReadStep(p.0, r).value);
    }
  }

  ghost function RereadAll(items: seq<Item>): (out: seq<Item>)
    ensures |out| == |items|
  {
    if items == [] then [] else [Reread(items[0])] + RereadAll(items[1..])
  }

  /** Reading the bytes of some items is reading what each of them rereads as. */
  lemma {:induction false} StreamItems(items: seq<Item>, rest: seq<byte>, r: Reader)
    requires ItemsOk(items) && Read(RereadAll(items), r).Some?
    ensures ReadStream(WriteItems(items) + rest, r) == Read(RereadAll(items), r)
    decreases |items|
  {
    if r.dests != [] {
      var tail := WriteItems(items[1..]) + rest;
      assert WriteItems(items) + rest == WriteItem(items[0]) + tail;
      ItemRoundTrip(items[0], tail);
      assert RereadAll(items)[1..] == RereadAll(items[1..]);
      StreamItems(items[1..], rest, ReadStep(Reread(items[0]), r).value);
    }
  }

  // --------------------------------------------------- the heap as it comes back

  function RereadObj(o: Obj): Obj {
    if o.DblArr? && |o.ds| >= 0x1_0000_0000 then DblArr(ReverseAll(o.ds)) else o
  }

  /** The source heap, with the bytes of huge float arrays reversed. */
  function RereadHeap(h: Heap): Heap {
    map a | a in h :: RereadObj(h[a])
  }

  lemma RereadHeapOk(h: Heap)
    requires HeapOk(h)
    ensures HeapOk(RereadHeap(h))
    ensures forall v :: ValOk(RereadHeap(h), v) == ValOk(h, v)
  {
    var g := RereadHeap(h);
    assert g.Keys == h.Keys;
    assert |g| == |g.Keys| && |h| == |h.Keys|;
    forall a | a in g ensures ObjOk(g, g[a]) {
      assert ObjOk(h, h[a]);
    }
  }

  lemma RereadStep(h: Heap, w: Writer)
    requires HeapOk(h) && ValsOk(h, w.work) && w.work != [] && ValsOk(RereadHeap(h), w.work)
    ensures WriteStep(RereadHeap(h), w) == (Reread(WriteStep(h, w).0), WriteStep(h, w).1)
  {
    assert ValOk(h, w.work[0]);
  }

  lemma {:induction false} RereadWalk(h: Heap, w: Writer)
    requires HeapOk(h) && WriterOk(h, w) && HeapOk(RereadHeap(h)) && WriterOk(RereadHeap(h), w)
    ensures Walk(RereadHeap(h), w) == (RereadAll(Walk(h, w).0), Walk(h, w).1)
    decreases |h.Keys - Elems(w.seen)|, |w.work|
  {
    if w.work != [] {
      var g, w' := RereadHeap(h), WriteStep(h, w).1;
      RereadStep(h, w);
      WriteStepOk(h, w);
      WriteStepOk(g, w);
      StepSmaller(h, w);
      RereadWalk(h, w');
      assert ([WriteStep(h, w).0] + Walk(h, w').0)[1..] == Walk(h, w').0;
    }
  }

  /** Every item of a traversal fits the format. */
  lemma {:induction false} WalkItemsOk(h: Heap, w: Writer)
    requires HeapOk(h) && WriterOk(h, w)
    ensures ItemsOk(Walk(h, w).0)
    decreases |h.Keys - Elems(w.seen)|, |w.work|
  {
    if w.work != [] {
      WriteStepOk(h, w);
      StepSmaller(h, w);
      WalkItemsOk(h, WriteStep(h, w).1);
      StepItemOk(h, w);
    }
  }

  lemma StepItemOk(h: Heap, w: Writer)
    requires HeapOk(h) && WriterOk(h, w) && w.work != []
    ensures ItemOk(WriteStep(h, w).0)
  {
    PowValues();
    assert ValOk(h, w.work[0]);
    if w.work[0].Ptr? {
      assert ObjOk(h, h[w.work[0].a]);
      SeenBound(h, w.seen);
    }
  }

  lemma {:induction false} SeenBound(h: Heap, seen: seq<Addr>)
    requires forall k :: 0 <= k < |seen| ==> seen[k] in h
    requires forall k, l :: 0 <= k < l < |seen| ==> seen[k] != seen[l]
    ensures |seen| <= |h|
    decreases |seen|
  {
    if seen != [] {
      var last := |seen| - 1;
      var h' := h - {seen[last]};
      assert |h'.Keys| == |h.Keys| - 1 by { assert h'.Keys == h.Keys - {seen[last]}; }
      SeenBound(h', seen[..last]);
    }
  }

  lemma {:induction false} RereadWords(h: Heap, seen: seq<Addr>)
    requires forall k :: 0 <= k < |seen| ==> seen[k] in h && seen[k] in RereadHeap(h)
    ensures Words(RereadHeap(h), seen) == Words(h, seen)
    decreases |seen|
  {
    if seen != [] {
      RereadWords(h, seen[..|seen| - 1]);
    }
  }

  // ------------------------------------------------------------- main results

  /** Marshalling round trip: for every heap, cycles and sharing included, the bytes
      written for `v` read back as a graph isomorphic to the one at `v`, float arrays
      of 2^32 elements or more byte-reversed, whatever follows the bytes. The reader
      allocates exactly the words and table entries that the writer counted. */
  lemma MarshalRoundTrip(h: Heap, v: Val, rest: seq<byte>)
    requires HeapOk(h) && ValOk(h, v)
    ensures var (items, seen) := Walk(h, Writer([v], []));
      ItemsOk(items) &&
      var out := ReadStream(WriteItems(items) + rest, START);
      && out.Some? && (forall k :: 0 <= k < |seen| ==> seen[k] in h)
      && Isomorphic(RereadHeap(h), v, seen, out.value.mem, out.value.table, out.value.root)
      && out.value.dest == Words(h, seen) && |out.value.table| == |seen|
  {
    var w := Writer([v], []);
    RereadHeapOk(h);
    GraphRoundTrip(RereadHeap(h), v);
    RereadWalk(h, w);
    WalkItemsOk(h, w);
    StreamItems(Walk(h, w).0, rest, START);
    RereadWords(h, Walk(h, w).1);
  }

  /** An object comes back as itself exactly when it is not a float array of 2^32
      elements or more, or all its doubles read the same backwards. */
  lemma ObjectRoundTripExact(o: Obj)
    ensures RereadObj(o) == o <==>
      !(o.DblArr? && |o.ds| >= 0x1_0000_0000 && exists i :: 0 <= i < |o.ds| && Reverse(o.ds[i]) != o.ds[i])
  {
    RereadExact(ItemOf(o));
  }
}
