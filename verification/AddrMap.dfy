/**
  The address map of `runtime/addrmap.c`: open addressing in which no key is ever more
  than MAX_CHAIN probes from its home slot; a chain that would get longer doubles the
  table, and the reinsertion may have to double it again.

  A value is a 64-bit word used as a bit set, modelled as the set of its bits.
 */
module AddrMap {

  import opened Bitwise
  import opened Arithmetic
  import opened Probing

  const MAX_CHAIN: nat := 100
  const INVALID_KEY: nat := 0
  const INIT_SIZE: nat := 256

  /** No allocation succeeds beyond this many entries of 16 bytes. */
  const MAX_ENTRIES: nat := 0x1000_0000_0000_0000

  type Bits = set<nat>

  datatype Slot = Slot(key: nat, bits: Bits)

  const FREE := Slot(INVALID_KEY, {})

  function Mixed(key: nat): nat {
    var pos := key * 0xcc9e2d51 % WORD;
    Xor(pos, pos / 0x2_0000)
  }

  /** pos_initial; the size is a power of two, so masking is taking the remainder. */
  function Home(key: nat, size: nat): (h: nat)
    requires size > 0
    ensures h < size
  {
    Mixed(key) % size
  }

  // ------------------------------------------------------------------ the invariant

  /** Slot number d of the probe path of a key. */
  function Probe(key: nat, d: nat, size: nat): (p: nat)
    requires d < MAX_CHAIN < size
    ensures p < size
  {
    At(Home(key, size), d, size)
  }

  /** Slot `p` is free, or is `d` probes from the home of its key, all taken before it. */
  ghost predicate Chained(table: seq<Slot>, p: nat, d: nat)
    requires p < |table| && MAX_CHAIN < |table|
  {
    && d < MAX_CHAIN && p == Probe(table[p].key, d, |table|)
    && forall e: nat :: e < d ==> Taken(table, table[p].key, e)
  }

  ghost predicate Taken(table: seq<Slot>, key: nat, e: nat)
    requires MAX_CHAIN < |table|
  {
    e < MAX_CHAIN && table[Probe(key, e, |table|)].key != INVALID_KEY
  }

  ghost predicate HasChain(table: seq<Slot>, p: nat)
    requires p < |table| && MAX_CHAIN < |table|
  {
    exists d: nat :: Chained(table, p, d)
  }

  ghost predicate ChainsOk(table: seq<Slot>) {
    MAX_CHAIN < |table| && forall p: nat :: p < |table| && table[p].key != INVALID_KEY ==> HasChain(table, p)
  }

  /** The slots taken hold exactly `contents`, one key each; free slots hold no bits. */
  ghost predicate Holds(table: seq<Slot>, contents: map<nat, Bits>) {
    && (forall p :: 0 <= p < |table| ==>
          if table[p].key == INVALID_KEY then table[p] == FREE
          else table[p].key in contents && contents[table[p].key] == table[p].bits)
    && (forall x :: x in contents ==> x != INVALID_KEY && HasKey(table, x))
    && (forall p, q :: 0 <= p < q < |table| && table[p].key != INVALID_KEY ==> table[p].key != table[q].key)
  }

  ghost predicate HasKey(table: seq<Slot>, x: nat) {
    exists p :: 0 <= p < |table| && table[p].key == x
  }

  ghost predicate TableOk(table: seq<Slot>, contents: map<nat, Bits>) {
    ChainsOk(table) && Holds(table, contents)
  }

  lemma EmptyOk(size: nat)
    requires MAX_CHAIN < size
    ensures TableOk(seq(size, _ => FREE), map[])
  {
  }

  /** A key in the map is found where its chain says, past other keys only. */
  lemma KeyChain(table: seq<Slot>, contents: map<nat, Bits>, x: nat) returns (d: nat)
    requires TableOk(table, contents) && x in contents
    ensures d < MAX_CHAIN && table[Probe(x, d, |table|)] == Slot(x, contents[x])
    ensures forall e: nat :: e < d ==> Taken(table, x, e)
  {
    assert HasKey(table, x);
    var p: nat :| p < |table| && table[p].key == x;
    assert HasChain(table, p);
    d :| Chained(table, p, d);
  }

  /** Probing for a key in the map meets no free slot, and the end of the chain, before
      the key. */
  lemma PresentIsAhead(table: seq<Slot>, contents: map<nat, Bits>, x: nat, d: nat)
    requires TableOk(table, contents) && x in contents && d <= MAX_CHAIN
    requires forall e: nat :: e < d ==> table[Probe(x, e, |table|)].key != x
    ensures d < MAX_CHAIN && table[Probe(x, d, |table|)].key != INVALID_KEY
  {
    var dx := KeyChain(table, contents, x);
    assert d <= dx;
    assert d == dx || Taken(table, x, d);
  }

  /** Filling that slot adds the key. */
  lemma FillOk(table: seq<Slot>, contents: map<nat, Bits>, x: nat, d: nat)
    requires TableOk(table, contents) && x != INVALID_KEY && x !in contents && d < MAX_CHAIN
    requires table[Probe(x, d, |table|)].key == INVALID_KEY
    requires forall e: nat :: e < d ==> Taken(table, x, e)
    ensures TableOk(table[Probe(x, d, |table|) := Slot(x, {})], contents[x := {}])
  {
    var h := Probe(x, d, |table|);
    var table' := table[h := Slot(x, {})];
    forall p: nat | p < |table'| && table'[p].key != INVALID_KEY ensures HasChain(table', p) {
      var dp: nat := d;
      if p != h {
        assert HasChain(table, p);
        dp :| Chained(table, p, dp);
      }
      forall e: nat | e < dp ensures Taken(table', table'[p].key, e) {
        assert Taken(table, table'[p].key, e);
      }
      assert Chained(table', p, dp);
    }
    FillHolds(table, contents, x, h);
  }

  lemma FillHolds(table: seq<Slot>, contents: map<nat, Bits>, x: nat, h: nat)
    requires Holds(table, contents) && x != INVALID_KEY && x !in contents
    requires h < |table| && table[h].key == INVALID_KEY
    ensures Holds(table[h := Slot(x, {})], contents[x := {}])
  {
    var table', contents' := table[h := Slot(x, {})], contents[x := {}];
    forall y | y in contents' ensures y != INVALID_KEY && HasKey(table', y) {
      if y == x {
        assert table'[h].key == x;
      } else {
        assert HasKey(table, y);
        var p :| 0 <= p < |table| && table[p].key == y;
        assert table'[p].key == y;
      }
    }
  }

  /** Writing through the pointer that an insertion returns. */
  lemma StoreOk(table: seq<Slot>, contents: map<nat, Bits>, p: nat, bits: Bits)
    requires TableOk(table, contents) && p < |table| && table[p].key != INVALID_KEY
    ensures TableOk(table[p := Slot(table[p].key, bits)], contents[table[p].key := bits])
  {
    var table', contents' := table[p := Slot(table[p].key, bits)], contents[table[p].key := bits];
    assert forall q :: 0 <= q < |table| ==> table'[q].key == table[q].key;
    forall q: nat | q < |table'| && table'[q].key != INVALID_KEY ensures HasChain(table', q) {
      assert HasChain(table, q);
      var d :| Chained(table, q, d);
      forall e: nat | e < d ensures Taken(table', table'[q].key, e) {
        assert Taken(table, table[q].key, e);
      }
      assert Chained(table', q, d);
    }
    forall y | y in contents' ensures y != INVALID_KEY && HasKey(table', y) {
      assert HasKey(table, y);
      var q :| 0 <= q < |table| && table[q].key == y;
      assert table'[q].key == y;
    }
  }

  // ------------------------------------------------------------------- reinsertion

  /** `done` is the part of the contents that lies in slots `lo` to `hi` - 1. */
  ghost predicate Between(table: seq<Slot>, contents: map<nat, Bits>, done: map<nat, Bits>, lo: nat, hi: nat) {
    && (forall y :: y in done ==> y in contents && done[y] == contents[y])
    && (forall p :: 0 <= p < |table| && table[p].key != INVALID_KEY ==> (table[p].key in done <==> lo <= p < hi))
  }

  lemma BetweenNext(table: seq<Slot>, contents: map<nat, Bits>, done: map<nat, Bits>, lo: nat, hi: nat)
    requires Holds(table, contents) && lo <= hi < |table| && Between(table, contents, done, lo, hi)
    requires table[hi].key != INVALID_KEY
    ensures table[hi].key !in done && table[hi].key in contents
    ensures Between(table, contents, done[table[hi].key := table[hi].bits], lo, hi + 1)
  {
  }

  lemma BetweenWhole(table: seq<Slot>, contents: map<nat, Bits>, done: map<nat, Bits>)
    requires Holds(table, contents) && Between(table, contents, done, 0, |table|)
    ensures done == contents
  {
    forall y | y in contents ensures y in done {
      assert HasKey(table, y);
    }
  }

  class Map {
    var table: seq<Slot>                 // empty before the first insertion
    ghost var contents: map<nat, Bits>

    ghost predicate Valid()
      reads this
    {
      if table == [] then contents == map[] else INIT_SIZE <= |table| <= MAX_ENTRIES && TableOk(table, contents)
    }

    /** The table cannot be doubled any more. */
    ghost predicate Full()
      reads this
    {
      |table| * 2 > MAX_ENTRIES
    }

    /** caml_addrmap_init */
    constructor ()
      ensures Valid() && contents == map[] && table == []
    {
      table, contents := [], map[];
    }

    /** caml_addrmap_contains */
    method Contains(x: nat) returns (found: bool)
      requires Valid() && x != INVALID_KEY
      ensures found <==> x in contents
    {
      if table == [] {
        return false;
      }
      var i, pos := 0, Home(x, |table|);
      while i < MAX_CHAIN
        invariant i <= MAX_CHAIN && (i < MAX_CHAIN ==> pos == Probe(x, i, |table|))
        invariant forall e: nat :: e < i ==> table[Probe(x, e, |table|)].key != x
      {
        if table[pos].key == INVALID_KEY {
          break;
        }
        if table[pos].key == x {
          return true;
        }
        i, pos := i + 1, Next(pos, |table|);
      }
      if x in contents {
        PresentIsAhead(table, contents, x, i);
      }
      found := false;
    }

    /** caml_addrmap_lookup, for a key that is there: the loop has no bound of its own. */
    method Lookup(x: nat) returns (bits: Bits)
      requires Valid() && x in contents
      ensures bits == contents[x]
    {
      ghost var dx := KeyChain(table, contents, x);
      ghost var d := 0;
      var pos := Home(x, |table|);
      while table[pos].key != x
        invariant d <= dx && pos == Probe(x, d, |table|)
        decreases dx - d
      {
        d := d + 1;
        pos := Next(pos, |table|);
      }
      bits := table[pos].bits;
    }

    /** The probing loop of caml_addrmap_insert_pos. */
    method TryInsert(x: nat) returns (found: bool, pos: nat)
      requires Valid() && table != [] && x != INVALID_KEY
      modifies this
      ensures Valid() && |table| == |old(table)|
      ensures !found ==> x !in contents && contents == old(contents)
      ensures found ==> pos < |table| && table[pos].key == x
      ensures found ==> contents == if x in old(contents) then old(contents) else old(contents)[x := {}]
    {
      var i := 0;
      pos := Home(x, |table|);
      while i < MAX_CHAIN
        invariant i <= MAX_CHAIN && (i < MAX_CHAIN ==> pos == Probe(x, i, |table|))
        invariant table == old(table) && contents == old(contents)
        invariant forall e: nat :: e < i ==> Taken(table, x, e) && table[Probe(x, e, |table|)].key != x
      {
        if table[pos].key == INVALID_KEY {
          if x in contents {
            PresentIsAhead(table, contents, x, i);
          }
          FillOk(table, contents, x, i);
          table, contents := table[pos := Slot(x, {})], contents[x := {}];
          return true, pos;
        }
        if table[pos].key == x {
          return true, pos;
        }
        i, pos := i + 1, Next(pos, |table|);
      }
      if x in contents {
        PresentIsAhead(table, contents, x, i);
      }
      found := false;
    }

    /** *p = v */
    method Store(p: nat, bits: Bits)
      requires Valid() && p < |table| && table[p].key != INVALID_KEY
      modifies this
      ensures Valid() && |table| == |old(table)|
      ensures contents == old(contents)[old(table)[p].key := bits]
    {
      StoreOk(table, contents, p, bits);
      contents := contents[table[p].key := bits];
      table := table[p := Slot(table[p].key, bits)];
    }

    /** caml_addrmap_insert_pos: the place of the value of `x`, inserted with no bits if
        it was not there. It fails only if the table would outgrow the memory. */
    method InsertPos(x: nat) returns (ok: bool, pos: nat)
      requires Valid() && x != INVALID_KEY
      modifies this
      ensures ok ==> Valid() && pos < |table| && table[pos].key == x && |table| >= |old(table)|
      ensures ok ==> contents == if x in old(contents) then old(contents) else old(contents)[x := {}]
      ensures !ok ==> Full()
      decreases MAX_ENTRIES - |table|, 1
    {
      if table == [] {
        table, contents := seq(INIT_SIZE, _ => FREE), map[];
        EmptyOk(INIT_SIZE);
      }
      var found;
      found, pos := TryInsert(x);
      if found {
        return true, pos;
      }
      if |table| * 2 > MAX_ENTRIES {
        return false, 0;
      }
      ok := Rehash();
      if !ok {
        return false, 0;
      }
      ok, pos := InsertPos(x);
    }

    /** Doubles the table and puts every entry back. */
    method Rehash() returns (ok: bool)
      requires Valid() && table != [] && |table| * 2 <= MAX_ENTRIES
      modifies this
      ensures ok ==> Valid() && contents == old(contents) && |table| >= 2 * |old(table)|
      ensures !ok ==> Full()
      decreases MAX_ENTRIES - |table|, 0
    {
      var oldTable := table;
      table := seq(|oldTable| * 2, _ => FREE);
      EmptyOk(|oldTable| * 2);
      contents := map[];
      var i := 0;
      while i < |oldTable|
        invariant i <= |oldTable| && |table| >= 2 * |oldTable| && Valid()
        invariant Between(oldTable, old(contents), contents, 0, i)
      {
        if oldTable[i].key != INVALID_KEY {
          ok := PutBack(oldTable, old(contents), i);
          if !ok {
            return;
          }
        }
        i := i + 1;
      }
      BetweenWhole(oldTable, old(contents), contents);
      ok := true;
    }

    /** One entry of the old table. */
    method PutBack(from: seq<Slot>, ghost all: map<nat, Bits>, i: nat) returns (ok: bool)
      requires Valid() && i < |from| && from[i].key != INVALID_KEY
      requires Holds(from, all) && Between(from, all, contents, 0, i)
      modifies this
      ensures ok ==> Valid() && Between(from, all, contents, 0, i + 1) && |table| >= |old(table)|
      ensures !ok ==> Full()
      decreases MAX_ENTRIES - |table|, 2
    {
      BetweenNext(from, all, contents, 0, i);
      var p;
      ok, p := InsertPos(from[i].key);
      if ok {
        Store(p, from[i].bits);
      }
    }

    /** caml_addrmap_insert */
    method Insert(x: nat, bits: Bits) returns (ok: bool)
      requires Valid() && x != INVALID_KEY && x !in contents
      modifies this
      ensures ok ==> Valid() && contents == old(contents)[x := bits]
      ensures !ok ==> Full()
    {
      var p;
      ok, p := InsertPos(x);
      if ok {
        Store(p, bits);
      }
    }
  }
}
