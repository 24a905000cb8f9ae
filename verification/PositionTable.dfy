/**
  The marshaller's table of objects already written (`runtime/extern.c`): open
  addressing with linear probing over a power-of-two number of slots, grown before it
  is more than two thirds full. It behaves as a finite map from objects to positions.
 */
module PositionTable {

  import opened Arithmetic
  import opened Probing

  type Addr = nat

  datatype Entry = Entry(obj: Addr, pos: nat)

  const HASH_FACTOR := 11400714819323198486

  /** Hash(v, shift): the top bits of the product, so an index below 2^(64 - shift). */
  function Hash(v: Addr, shift: nat): nat {
    Quotient(v * HASH_FACTOR % WORD, Pow2(shift))
  }

  function Threshold(size: nat): nat {
    size * 2 / 3
  }

  lemma Pow2Word()
    ensures Pow2(64) == WORD && Pow2(8) == 256 && Pow2(56) * 256 == WORD
  {
    assert Pow2(4) == 16;
    Pow2Sum(4, 4);
    Pow2Sum(8, 8);
    Pow2Sum(16, 16);
    Pow2Sum(32, 32);
    Pow2Sum(56, 8);
  }

  /** A hash is an index into a table of 2^(64 - shift) slots. */
  lemma HashBound(v: Addr, shift: nat, size: nat)
    requires Pow2(shift) * size == WORD
    ensures Hash(v, shift) < size
  {
    if Hash(v, shift) >= size {
      Monotone(size, Hash(v, shift), Pow2(shift));
    }
  }

  // ------------------------------------------------ counting occupied slots

  ghost function Count(present: seq<bool>): nat {
    if present == [] then 0 else (if present[0] then 1 else 0) + Count(present[1..])
  }

  lemma {:induction false} CountSet(present: seq<bool>, p: nat)
    requires p < |present| && !present[p]
    ensures Count(present[p := true]) == Count(present) + 1
  {
    if p == 0 {
      assert present[0 := true][1..] == present[1..];
    } else {
      assert present[p := true][1..] == present[1..][p - 1 := true];
      CountSet(present[1..], p - 1);
    }
  }

  lemma {:induction false} CountFull(present: seq<bool>)
    requires forall p :: 0 <= p < |present| ==> present[p]
    ensures Count(present) == |present|
  {
    if present != [] {
      CountFull(present[1..]);
    }
  }

  lemma EmptySlot(present: seq<bool>) returns (q: nat)
    requires Count(present) < |present|
    ensures q < |present| && !present[q]
  {
    if forall p :: 0 <= p < |present| ==> present[p] {
      CountFull(present);
      assert false;
    }
    q :| q < |present| && !present[q];
  }

  // ------------------------------------------------------- the probing invariant

  /** Every slot from an entry's hash up to the entry is occupied. */
  ghost predicate Probed(present: seq<bool>, entries: seq<Entry>, shift: nat)
    requires |present| == |entries| && Pow2(shift) * |entries| == WORD
  {
    forall p: nat, d: nat :: p < |present| && present[p] && Reached(entries, shift, p, d) ==>
      present[At(Slot0(entries[p].obj, shift, |entries|), d, |entries|)]
  }

  ghost function Slot0(obj: Addr, shift: nat, size: nat): (h: nat)
    requires Pow2(shift) * size == WORD
    ensures h < size
  {
    HashBound(obj, shift, size);
    Hash(obj, shift)
  }

  ghost predicate Reached(entries: seq<Entry>, shift: nat, p: nat, d: nat)
    requires p < |entries| && Pow2(shift) * |entries| == WORD
  {
    d <= Distance(Slot0(entries[p].obj, shift, |entries|), p, |entries|)
  }

  /** The occupied slots hold exactly the entries of `contents`, one each. */
  ghost predicate Holds(present: seq<bool>, entries: seq<Entry>, contents: map<Addr, nat>)
    requires |present| == |entries|
  {
    && (forall p :: 0 <= p < |present| && present[p] ==>
          entries[p].obj in contents && contents[entries[p].obj] == entries[p].pos)
    && (forall x :: x in contents ==> exists p :: 0 <= p < |present| && present[p] && entries[p].obj == x)
    && (forall p, q :: 0 <= p < q < |present| && present[p] && present[q] ==> entries[p].obj != entries[q].obj)
  }

  /** A free slot reached from `x`'s hash past other objects only: where `x` belongs. */
  ghost predicate FreeFor(present: seq<bool>, entries: seq<Entry>, shift: nat, x: Addr, h: nat)
    requires |present| == |entries| && Pow2(shift) * |entries| == WORD
  {
    && h < |present| && !present[h]
    && (forall d :: 0 <= d < Distance(Slot0(x, shift, |entries|), h, |entries|) ==>
          present[At(Slot0(x, shift, |entries|), d, |entries|)])
  }

  /** A free slot on `x`'s probe path means that `x` is not in the table. */
  lemma FreeMeansAbsent(present: seq<bool>, entries: seq<Entry>, shift: nat, contents: map<Addr, nat>, x: Addr, d: nat)
    requires |present| == |entries| && Pow2(shift) * |entries| == WORD
    requires Probed(present, entries, shift) && Holds(present, entries, contents)
    requires d < |present| && !present[At(Slot0(x, shift, |entries|), d, |entries|)]
    requires forall e :: 0 <= e < d ==> entries[At(Slot0(x, shift, |entries|), e, |entries|)].obj != x
    ensures x !in contents
  {
    forall p | 0 <= p < |present| && present[p] ensures entries[p].obj != x {
      var dp := Distance(Slot0(entries[p].obj, shift, |entries|), p, |entries|);
      assert d > dp || Reached(entries, shift, p, d);
      assert At(Slot0(entries[p].obj, shift, |entries|), dp, |entries|) == p;
    }
  }

  /** Filling such a slot adds the entry and keeps the invariant. */
  lemma Insert(present: seq<bool>, entries: seq<Entry>, shift: nat, contents: map<Addr, nat>, x: Addr, pos: nat, h: nat)
    requires |present| == |entries| && Pow2(shift) * |entries| == WORD
    requires Probed(present, entries, shift) && Holds(present, entries, contents)
    requires FreeFor(present, entries, shift, x, h) && x !in contents
    ensures Probed(present[h := true], entries[h := Entry(x, pos)], shift)
    ensures Holds(present[h := true], entries[h := Entry(x, pos)], contents[x := pos])
  {
    var present', entries' := present[h := true], entries[h := Entry(x, pos)];
    forall p: nat, d: nat | p < |present'| && present'[p] && Reached(entries', shift, p, d)
      ensures present'[At(Slot0(entries'[p].obj, shift, |entries'|), d, |entries'|)]
    {
      assert p != h ==> Reached(entries, shift, p, d);
    }
    var contents' := contents[x := pos];
    forall y | y in contents'
      ensures exists p :: 0 <= p < |present'| && present'[p] && entries'[p].obj == y
    {
      if y == x {
        assert present'[h] && entries'[h].obj == x;
      } else {
        var p :| 0 <= p < |present| && present[p] && entries[p].obj == y;
        assert present'[p] && entries'[p].obj == y;
      }
    }
  }

  lemma {:induction false} CountPrefix(present: seq<bool>, i: nat)
    requires i < |present|
    ensures Count(present[..i + 1]) == Count(present[..i]) + if present[i] then 1 else 0
  {
    if i == 0 {
      assert present[..1][1..] == [];
    } else {
      assert present[..i + 1][1..] == present[1..][..i] && present[..i][1..] == present[1..][..i - 1];
      CountPrefix(present[1..], i - 1);
    }
  }

  lemma {:induction false} CountNone(n: nat)
    ensures Count(seq(n, _ => false)) == 0
  {
    var s := seq(n, _ => false);
    if n > 0 {
      assert s[1..] == seq(n - 1, _ => false);
      CountNone(n - 1);
    }
  }

  /** The tables grow by 8 up to a million slots and by 2 afterwards, until the byte
      size no longer fits a word. */
  function Growth(size: nat): nat {
    if size < 1000000 then 3 else 1
  }

  /** What a table that cannot grow any more has room for: 2/3 of 2^59 slots. */
  const MAX_OBJECTS: nat := 0x0555_5555_5555_5555

  lemma LastSize(size: nat)
    requires size * Pow2(Growth(size)) * 16 >= WORD
    ensures Threshold(size) >= MAX_OBJECTS
  {
    assert Pow2(1) == 2 && Pow2(2) == 4 && Pow2(3) == 8;
  }

  lemma GrownSize(shift: nat, size: nat)
    requires Pow2(shift) * size == WORD && size * Pow2(Growth(size)) * 16 < WORD
    ensures shift >= Growth(size) && Pow2(shift - Growth(size)) * (size * Pow2(Growth(size))) == WORD
    ensures Threshold(size) < Threshold(size * Pow2(Growth(size)))
  {
    var g := Growth(size);
    assert Pow2(1) == 2 && Pow2(2) == 4 && Pow2(3) == 8;
    if shift < g {
      assert Pow2(shift) <= 4;
      Monotone(Pow2(shift), 4, size);
    } else {
      Pow2Sum(shift - g, g);
      Multiply3(Pow2(shift - g), Pow2(g), size);
    }
  }

  lemma Multiply3(a: nat, b: nat, c: nat)
    ensures a * b * c == a * (c * b)
  {
  }

  /** The first free slot on `x`'s probe path. */
  method FreeSlot(present: seq<bool>, entries: seq<Entry>, shift: nat, x: Addr) returns (h: nat)
    requires |present| == |entries| && Pow2(shift) * |entries| == WORD && Count(present) < |present|
    ensures FreeFor(present, entries, shift, x, h)
  {
    ghost var size, h0 := |entries|, Slot0(x, shift, |entries|);
    ghost var q := EmptySlot(present);
    ghost var d := 0;
    h := Hash(x, shift);
    while present[h]
      invariant d <= Distance(h0, q, size) && h == At(h0, d, size)
      invariant forall e :: 0 <= e < d ==> present[At(h0, e, size)]
      decreases size - d
    {
      h := Next(h, |entries|);
      d := d + 1;
    }
  }

  /** Which of the entries of a table lie below slot `i`. */
  ghost predicate Below(present: seq<bool>, entries: seq<Entry>, contents: map<Addr, nat>, done: map<Addr, nat>, i: nat)
    requires |present| == |entries|
  {
    && (forall y :: y in done ==> y in contents && done[y] == contents[y])
    && (forall p :: 0 <= p < |entries| && present[p] ==> (entries[p].obj in done <==> p < i))
  }

  lemma BelowNext(present: seq<bool>, entries: seq<Entry>, contents: map<Addr, nat>, done: map<Addr, nat>, i: nat)
    requires |present| == |entries| && Holds(present, entries, contents) && i < |entries|
    requires Below(present, entries, contents, done, i)
    ensures present[i] ==> entries[i].obj !in done
    ensures Below(present, entries, contents,
                  if present[i] then done[entries[i].obj := entries[i].pos] else done, i + 1)
  {
  }

  lemma BelowAll(present: seq<bool>, entries: seq<Entry>, contents: map<Addr, nat>, done: map<Addr, nat>)
    requires |present| == |entries| && Holds(present, entries, contents)
    requires Below(present, entries, contents, done, |entries|)
    ensures done == contents
  {
    forall y | y in contents ensures y in done {
      var p :| 0 <= p < |present| && present[p] && entries[p].obj == y;
    }
  }

  /** The reinsertion loop of extern_resize_position_table. */
  method Rehash(present: seq<bool>, entries: seq<Entry>, ghost contents: map<Addr, nat>, shift: nat, size: nat)
    returns (newPresent: seq<bool>, newEntries: seq<Entry>)
    requires |present| == |entries| < size && Pow2(shift) * size == WORD && Holds(present, entries, contents)
    ensures |newPresent| == |newEntries| == size && Count(newPresent) == Count(present)
    ensures Probed(newPresent, newEntries, shift) && Holds(newPresent, newEntries, contents)
  {
    newPresent := seq(size, _ => false);
    newEntries := seq(size, _ => Entry(0, 0));
    ghost var done: map<Addr, nat> := map[];
    CountNone(size);
    var i := 0;
    while i < |entries|
      invariant 0 <= i <= |entries| && |newPresent| == |newEntries| == size
      invariant Probed(newPresent, newEntries, shift) && Holds(newPresent, newEntries, done)
      invariant Count(newPresent) == Count(present[..i]) <= i
      invariant Below(present, entries, contents, done, i)
    {
      CountPrefix(present, i);
      BelowNext(present, entries, contents, done, i);
      if present[i] {
        var h := FreeSlot(newPresent, newEntries, shift, entries[i].obj);
        Insert(newPresent, newEntries, shift, done, entries[i].obj, entries[i].pos, h);
        CountSet(newPresent, h);
        newPresent := newPresent[h := true];
        newEntries := newEntries[h := Entry(entries[i].obj, entries[i].pos)];
        done := done[entries[i].obj := entries[i].pos];
      }
      i := i + 1;
    }
    assert present[..i] == present;
    BelowAll(present, entries, contents, done);
  }

  class Table {
    var shift: nat
    var present: seq<bool>
    var entries: seq<Entry>
    ghost var contents: map<Addr, nat>

    ghost predicate Valid()
      reads this
    {
      && |present| == |entries| && Pow2(shift) * |entries| == WORD
      && Probed(present, entries, shift) && Holds(present, entries, contents)
      && Count(present) == |contents| < Threshold(|entries|)
    }

    /** extern_init_position_table */
    constructor ()
      ensures Valid() && contents == map[] && |entries| == 256
    {
      shift := 56;
      present := seq(256, _ => false);
      entries := seq(256, _ => Entry(0, 0));
      contents := map[];
      Pow2Word();
      CountNone(256);
    }

    /** extern_lookup_position: the recorded position, or the slot where to record one. */
    method Lookup(x: Addr) returns (found: bool, pos: nat, h: nat)
      requires Valid()
      ensures found <==> x in contents
      ensures found ==> pos == contents[x]
      ensures !found ==> FreeFor(present, entries, shift, x, h)
    {
      ghost var size, h0 := |entries|, Slot0(x, shift, |entries|);
      ghost var q := EmptySlot(present);
      ghost var d := 0;
      h := Hash(x, shift);
      while true
        invariant d <= Distance(h0, q, size) && h == At(h0, d, size)
        invariant forall e :: 0 <= e < d ==> present[At(h0, e, size)] && entries[At(h0, e, size)].obj != x
        decreases size - d
      {
        if !present[h] {
          FreeMeansAbsent(present, entries, shift, contents, x, d);
          return false, 0, h;
        }
        if entries[h].obj == x {
          return true, entries[h].pos, 0;
        }
        h := Next(h, |entries|);
        d := d + 1;
      }
    }

    /** extern_record_location: `counter` is obj_counter. False only when so many objects
        are recorded that the table cannot grow. */
    method Record(x: Addr, counter: nat, h: nat) returns (ok: bool)
      requires Valid() && x !in contents && counter == |contents|
      requires FreeFor(present, entries, shift, x, h)
      modifies this
      ensures ok ==> Valid() && contents == old(contents)[x := counter]
      ensures !ok ==> counter + 1 >= MAX_OBJECTS
    {
      Insert(present, entries, shift, contents, x, counter, h);
      CountSet(present, h);
      present := present[h := true];
      entries := entries[h := Entry(x, counter)];
      contents := contents[x := counter];
      ok := true;
      if counter + 1 >= Threshold(|entries|) {
        ok := Resize();
      }
    }

    /** extern_resize_position_table */
    method Resize() returns (ok: bool)
      requires |present| == |entries| && Pow2(shift) * |entries| == WORD
      requires Probed(present, entries, shift) && Holds(present, entries, contents)
      requires Count(present) == |contents| <= Threshold(|entries|)
      modifies this
      ensures contents == old(contents) && (ok ==> Valid())
      ensures ok <==> old(|entries| * Pow2(Growth(|entries|)) * 16) < WORD
      ensures !ok ==> Threshold(old(|entries|)) >= MAX_OBJECTS
      ensures ok ==> |entries| == old(|entries| * Pow2(Growth(|entries|)))
    {
      var newSize := |entries| * Pow2(Growth(|entries|));
      if newSize * 16 >= WORD {
        LastSize(|entries|);
        return false;
      }
      GrownSize(shift, |entries|);
      var newShift := shift - Growth(|entries|);
      var newPresent, newEntries := Rehash(present, entries, contents, newShift, newSize);
      shift, present, entries := newShift, newPresent, newEntries;
      ok := true;
    }
  }
}
