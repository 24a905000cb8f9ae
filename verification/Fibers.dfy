/**
  Effect handlers: fibers (stacks) move between the running chain, continuations and the
  free cache by pointer surgery in `runtime/interp.c` and `runtime/fiber.c`. Every fiber
  stays in exactly one place, and a captured chain comes back whole and in order.
 */
module Fibers {

  import opened Common

  type Fiber = nat
  type Cont = nat

  /** Who owns a chain of fibers: the running computation, a continuation not used yet,
      or code that has taken the chain, known by its first fiber, off a continuation or
      has just allocated it. */
  datatype Holder = Running | Held(k: Cont) | Taken(f: Fiber)

  /** Where a fiber is; Lost is nowhere the runtime could find it again. */
  datatype Place = In(o: Holder) | Released | Lost

  type Parents = map<Fiber, Option<Fiber>>
  type Chains = map<Holder, seq<Fiber>>
  type Places = map<Fiber, Place>

  // ------------------------------------------------------------------- linearity

  function Last(c: seq<Fiber>): Fiber
    requires c != []
  {
    c[|c| - 1]
  }

  function Successor(c: seq<Fiber>, i: nat): Option<Fiber> {
    if i + 1 < |c| then Some(c[i + 1]) else None
  }

  /** The parent links lead from each fiber of `c` to the next, and end with the last. */
  ghost predicate Linked(parent: Parents, c: seq<Fiber>) {
    && c != [] && Distinct(c)
    && forall i :: 0 <= i < |c| ==> c[i] in parent && parent[c[i]] == Successor(c, i)
  }

  ghost predicate AllIn(c: seq<Fiber>, o: Holder, place: Places) {
    forall i :: 0 <= i < |c| ==> c[i] in place && place[c[i]] == In(o)
  }

  ghost predicate AllLinked(parent: Parents, chains: Chains) {
    forall o :: o in chains ==> Linked(parent, chains[o])
  }

  /** A fiber is in a chain exactly when its place says so. */
  ghost predicate Owned(chains: Chains, place: Places) {
    && (forall o :: o in chains ==> AllIn(chains[o], o, place))
    && (forall f :: f in place && place[f].In? ==> place[f].o in chains && f in chains[place[f].o])
  }

  /** Every fiber that is somewhere in a chain is in one chain only, once, and the links
      between fibers are those of the chains. */
  ghost predicate Linear(parent: Parents, chains: Chains, place: Places) {
    AllLinked(parent, chains) && Owned(chains, place) && forall f :: f in place ==> f in parent
  }

  ghost predicate NoneLost(place: Places) {
    forall f :: f in place ==> place[f] != Lost
  }

  function Moved(place: Places, c: seq<Fiber>, p: Place): Places {
    map f | f in place :: if f in c then p else place[f]
  }

  /** A link changed outside a chain does not matter to it. */
  lemma LinkedFrame(parent: Parents, f: Fiber, p: Option<Fiber>, c: seq<Fiber>)
    requires Linked(parent, c) && f !in c
    ensures Linked(parent[f := p], c)
  {
  }

  lemma LinkedTail(parent: Parents, c: seq<Fiber>)
    requires Linked(parent, c) && |c| > 1
    ensures Linked(parent, c[1..]) && c[0] !in c[1..] && c[1..][0] == c[1]
  {
    forall i | 0 <= i < |c| - 1
      ensures c[1..][i] in parent && parent[c[1..][i]] == Successor(c[1..], i)
    {
      assert parent[c[i + 1]] == Successor(c, i + 1);
    }
  }

  lemma LinkedSingle(parent: Parents, f: Fiber)
    ensures Linked(parent[f := None], [f])
  {
  }

  /** Setting the parent of the last fiber of a chain appends another one. */
  lemma LinkedAppend(parent: Parents, c: seq<Fiber>, d: seq<Fiber>)
    requires Linked(parent, c) && Linked(parent, d) && forall i, j :: 0 <= i < |c| && 0 <= j < |d| ==> c[i] != d[j]
    ensures Linked(parent[Last(c) := Some(d[0])], c + d)
  {
    var parent' := parent[Last(c) := Some(d[0])];
    forall i | 0 <= i < |c + d| ensures (c + d)[i] in parent' && parent'[(c + d)[i]] == Successor(c + d, i) {
      if i < |c| {
        assert parent[c[i]] == Successor(c, i);
      } else {
        assert parent[d[i - |c|]] == Successor(d, i - |c|);
      }
    }
  }

  /** Chains of different holders have no fiber in common. */
  lemma Disjoint(chains: Chains, place: Places, o: Holder, o': Holder, f: Fiber)
    requires Owned(chains, place) && o in chains && o' in chains && o != o' && f in chains[o]
    ensures f !in chains[o']
  {
    assert AllIn(chains[o], o, place) && AllIn(chains[o'], o', place);
  }

  lemma FirstNotAfter(c: seq<Fiber>)
    requires c != [] && Distinct(c)
    ensures c[0] !in c[1..] && forall f :: f in c && f != c[0] ==> f in c[1..]
  {
    forall f | f in c && f != c[0] ensures f in c[1..] {
      var i :| 0 <= i < |c| && c[i] == f;
      assert c[1..][i - 1] == f;
    }
  }

  // -------------------------------------------------- what each operation does to it

  /** The first running fiber moves to the end of the chain of another holder, which may
      be new. */
  lemma AppendOwned(chains: Chains, place: Places, o: Holder, d: seq<Fiber>)
    requires Owned(chains, place) && Running in chains && chains[Running] != [] && Distinct(chains[Running])
    requires o != Running && d == if o in chains then chains[o] else []
    ensures var c := chains[Running];
      Owned(chains[Running := c[1..]][o := d + [c[0]]], place[c[0] := In(o)])
  {
    var c := chains[Running];
    var chains', place' := chains[Running := c[1..]][o := d + [c[0]]], place[c[0] := In(o)];
    FirstNotAfter(c);
    forall q | q in chains' ensures AllIn(chains'[q], q, place') {
      if q in chains {
        assert AllIn(chains[q], q, place);
      }
      if q in chains && q != Running {
        Disjoint(chains, place, Running, q, c[0]);
      }
    }
    assert (d + [c[0]])[|d|] == c[0];
    assert forall f :: f in d ==> f in d + [c[0]];
  }

  /** PERFORM: the running fiber becomes a continuation. */
  lemma PerformLinear(parent: Parents, chains: Chains, place: Places, k: Cont)
    requires Linear(parent, chains, place) && Running in chains && |chains[Running]| > 1 && Held(k) !in chains
    ensures var c := chains[Running];
      Linear(parent[c[0] := None], chains[Running := c[1..]][Held(k) := [c[0]]], place[c[0] := In(Held(k))])
  {
    var c := chains[Running];
    var chains' := chains[Running := c[1..]][Held(k) := [c[0]]];
    assert Linked(parent, c);
    AppendOwned(chains, place, Held(k), []);
    assert [] + [c[0]] == [c[0]];
    LinkedTail(parent, c);
    LinkedFrame(parent, c[0], None, c[1..]);
    LinkedSingle(parent, c[0]);
    forall o | o in chains' && o != Running && o != Held(k) ensures Linked(parent[c[0] := None], chains'[o]) {
      Disjoint(chains, place, Running, o, c[0]);
      LinkedFrame(parent, c[0], None, chains[o]);
    }
  }

  /** REPERFORMTERM: the running fiber joins the chain of the continuation, at its end. */
  lemma ReperformLinear(parent: Parents, chains: Chains, place: Places, k: Cont)
    requires Linear(parent, chains, place) && Running in chains && |chains[Running]| > 1 && Held(k) in chains
    ensures var (c, d) := (chains[Running], chains[Held(k)]);
      d != [] &&
      Linear(parent[c[0] := None][Last(d) := Some(c[0])], chains[Running := c[1..]][Held(k) := d + [c[0]]],
             place[c[0] := In(Held(k))])
  {
    var c, d := chains[Running], chains[Held(k)];
    assert Linked(parent, c) && Linked(parent, d);
    AppendOwned(chains, place, Held(k), d);
    ReperformLinked(parent, c, d, chains, place, k);
    assert forall f :: f in place ==> f in parent;
  }

  lemma ReperformLinked(parent: Parents, c: seq<Fiber>, d: seq<Fiber>, chains: Chains, place: Places, k: Cont)
    requires AllLinked(parent, chains) && Owned(chains, place) && Running in chains && Held(k) in chains
    requires c == chains[Running] && |c| > 1 && d == chains[Held(k)] && d != []
    ensures AllLinked(parent[c[0] := None][Last(d) := Some(c[0])], chains[Running := c[1..]][Held(k) := d + [c[0]]])
  {
    var parent1 := parent[c[0] := None];
    var parent2, chains' := parent1[Last(d) := Some(c[0])], chains[Running := c[1..]][Held(k) := d + [c[0]]];
    assert Linked(parent, c) && Linked(parent, d);
    Disjoint(chains, place, Running, Held(k), c[0]);
    Disjoint(chains, place, Held(k), Running, Last(d));
    LinkedTail(parent, c);
    LinkedFrame(parent, c[0], None, c[1..]);
    LinkedFrame(parent1, Last(d), Some(c[0]), c[1..]);
    LinkedFrame(parent, c[0], None, d);
    LinkedSingle(parent, c[0]);
    LinkedAppend(parent1, d, [c[0]]);
    forall o | o in chains' && o != Running && o != Held(k) ensures Linked(parent2, chains'[o]) {
      Disjoint(chains, place, Running, o, c[0]);
      Disjoint(chains, place, Held(k), o, Last(d));
      LinkedFrame(parent, c[0], None, chains[o]);
      LinkedFrame(parent1, Last(d), Some(c[0]), chains[o]);
    }
  }

  lemma PrependOwned(chains: Chains, place: Places, o: Holder)
    requires Owned(chains, place) && Running in chains && o in chains && o != Running
    ensures Owned((chains - {o})[Running := chains[o] + chains[Running]], Moved(place, chains[o], In(Running)))
  {
    var c, d := chains[Running], chains[o];
    var chains', place' := (chains - {o})[Running := d + c], Moved(place, d, In(Running));
    forall q | q in chains' ensures AllIn(chains'[q], q, place') {
      MovedKeeps(chains, place, o, In(Running), q);
    }
    assert forall f :: f in d || f in c ==> f in d + c;
  }

  /** Moving the chain of one holder does not move the others. */
  lemma MovedKeeps(chains: Chains, place: Places, o: Holder, p: Place, q: Holder)
    requires Owned(chains, place) && o in chains
    ensures q in chains && q != o ==> AllIn(chains[q], q, Moved(place, chains[o], p))
    ensures forall f :: f in chains[o] ==> f in Moved(place, chains[o], p) && Moved(place, chains[o], p)[f] == p
  {
    assert AllIn(chains[o], o, place);
    if q in chains && q != o {
      assert AllIn(chains[q], q, place);
    }
  }

  /** RESUME: a taken chain goes in front of the running one. */
  lemma ResumeLinear(parent: Parents, chains: Chains, place: Places, o: Holder)
    requires Linear(parent, chains, place) && Running in chains && o in chains && o != Running
    ensures var (c, d) := (chains[Running], chains[o]);
      c != [] && d != [] &&
      Linear(parent[Last(d) := Some(c[0])], (chains - {o})[Running := d + c], Moved(place, d, In(Running)))
  {
    var c, d := chains[Running], chains[o];
    var chains' := (chains - {o})[Running := d + c];
    assert Linked(parent, c) && Linked(parent, d);
    PrependOwned(chains, place, o);
    forall i, j | 0 <= i < |d| && 0 <= j < |c| ensures d[i] != c[j] {
      Disjoint(chains, place, o, Running, d[i]);
    }
    LinkedAppend(parent, d, c);
    forall q | q in chains' && q != Running ensures Linked(parent[Last(d) := Some(c[0])], chains'[q]) {
      Disjoint(chains, place, o, q, Last(d));
      LinkedFrame(parent, Last(d), Some(c[0]), chains[q]);
    }
  }

  /** Taking a chain off a continuation, or putting it back. */
  lemma HandOverLinear(parent: Parents, chains: Chains, place: Places, o: Holder, o': Holder)
    requires Linear(parent, chains, place) && o in chains && o' !in chains
    ensures Linear(parent, (chains - {o})[o' := chains[o]], Moved(place, chains[o], In(o')))
  {
    var chains', place' := (chains - {o})[o' := chains[o]], Moved(place, chains[o], In(o'));
    forall q | q in chains' ensures AllIn(chains'[q], q, place') {
      MovedKeeps(chains, place, o, In(o'), q);
    }
  }

  lemma FinishOwned(chains: Chains, place: Places)
    requires Owned(chains, place) && Running in chains && chains[Running] != [] && Distinct(chains[Running])
    ensures var c := chains[Running];
      Owned(chains[Running := c[1..]], place[c[0] := Released])
  {
    var c := chains[Running];
    FirstNotAfter(c);
    forall o | o in chains ensures AllIn(chains[Running := c[1..]][o], o, place[c[0] := Released]) {
      assert AllIn(chains[o], o, place);
      if o != Running {
        Disjoint(chains, place, Running, o, c[0]);
      }
    }
  }

  /** The running fiber ends, by a return or an exception, and is released. */
  lemma FinishLinear(parent: Parents, chains: Chains, place: Places)
    requires Linear(parent, chains, place) && Running in chains && |chains[Running]| > 1
    ensures var c := chains[Running];
      Linear(parent, chains[Running := c[1..]], place[c[0] := Released])
  {
    assert Linked(parent, chains[Running]);
    LinkedTail(parent, chains[Running]);
    FinishOwned(chains, place);
  }

  lemma NotInChains(chains: Chains, place: Places, f: Fiber, o: Holder)
    requires Owned(chains, place) && (f !in place || place[f] == Released) && o in chains
    ensures f !in chains[o]
  {
    assert AllIn(chains[o], o, place);
  }

  /** A stack taken from the cache or the allocator. */
  lemma AllocLinear(parent: Parents, chains: Chains, place: Places, f: Fiber)
    requires Linear(parent, chains, place) && (f !in place || place[f] == Released) && Taken(f) !in chains
    ensures Linear(parent[f := None], chains[Taken(f) := [f]], place[f := In(Taken(f))])
  {
    var parent', chains', place' := parent[f := None], chains[Taken(f) := [f]], place[f := In(Taken(f))];
    LinkedSingle(parent, f);
    forall o | o in chains ensures Linked(parent', chains[o]) && AllIn(chains[o], o, place') {
      NotInChains(chains, place, f, o);
      assert AllIn(chains[o], o, place);
      LinkedFrame(parent, f, None, chains[o]);
    }
    assert AllIn([f], Taken(f), place');
  }

  lemma LinkedReplace(parent: Parents, c: seq<Fiber>, g: Fiber)
    requires Linked(parent, c) && g !in c
    ensures Linked(parent[g := parent[c[0]]], [g] + c[1..])
  {
    var c', parent' := [g] + c[1..], parent[g := parent[c[0]]];
    forall i | 0 <= i < |c'| ensures c'[i] in parent' && parent'[c'[i]] == Successor(c', i) {
      assert parent[c[i]] == Successor(c, i);
    }
  }

  lemma ReplaceOwned(chains: Chains, place: Places, g: Fiber)
    requires Owned(chains, place) && (g !in place || place[g] == Released)
    requires Running in chains && chains[Running] != [] && Distinct(chains[Running])
    ensures var c := chains[Running];
      Owned(chains[Running := [g] + c[1..]], place[c[0] := Released][g := In(Running)])
  {
    var c := chains[Running];
    var place1 := place[c[0] := Released];
    FinishOwned(chains, place);
    var chains1 := chains[Running := c[1..]];
    var chains', place' := chains[Running := [g] + c[1..]], place1[g := In(Running)];
    forall o | o in chains' ensures AllIn(chains'[o], o, place') {
      assert AllIn(chains1[o], o, place1);
      NotInChains(chains1, place1, g, o);
    }
    assert ([g] + c[1..])[0] == g;
    assert forall f :: f in c[1..] ==> f in [g] + c[1..];
  }

  /** caml_try_realloc_stack: a larger stack takes the place of the running one. */
  lemma ReallocLinear(parent: Parents, chains: Chains, place: Places, g: Fiber)
    requires Linear(parent, chains, place) && (g !in place || place[g] == Released) && Running in chains
    ensures var c := chains[Running];
      c != [] && c[0] in parent &&
      Linear(parent[g := parent[c[0]]], chains[Running := [g] + c[1..]], place[c[0] := Released][g := In(Running)])
  {
    var c := chains[Running];
    assert Linked(parent, c);
    NotInChains(chains, place, g, Running);
    LinkedReplace(parent, c, g);
    ReplaceOwned(chains, place, g);
    forall o | o in chains && o != Running ensures Linked(parent[g := parent[c[0]]], chains[o]) {
      NotInChains(chains, place, g, o);
      LinkedFrame(parent, g, parent[c[0]], chains[o]);
    }
  }

  /** caml_drop_continuation releases the first stack of the chain, and only that one. */
  lemma DropLinear(parent: Parents, chains: Chains, place: Places, o: Holder)
    requires Linear(parent, chains, place) && o in chains
    ensures chains[o] != []
    ensures Linear(parent, chains - {o}, Moved(place, chains[o], Lost)[chains[o][0] := Released])
    ensures NoneLost(place) ==>
      (NoneLost(Moved(place, chains[o], Lost)[chains[o][0] := Released]) <==> |chains[o]| == 1)
  {
    var c := chains[o];
    assert Linked(parent, c);
    var place' := Moved(place, c, Lost)[c[0] := Released];
    forall q | q in chains && q != o ensures AllIn(chains[q], q, place') {
      MovedKeeps(chains, place, o, Lost, q);
      Disjoint(chains, place, o, q, c[0]);
    }
    MovedKeeps(chains, place, o, Lost, o);
    if |c| > 1 {
      assert c[1] in place' && place'[c[1]] == Lost;
    } else {
      forall f | f in place' && NoneLost(place) ensures place'[f] != Lost {
        assert f in c ==> f == c[0];
      }
    }
  }

  // ------------------------------------------------------------------ the pointers

  /** Fields 0 and 1 of the continuations. */
  type Fields = map<Cont, Option<Fiber>>

  /** The tail passed to the handler along with each continuation: it lives on the
      handler's stack until the effect is passed on or field 1 is set. */
  type Tails = map<Cont, Fiber>

  /** The pointers that the runtime keeps lead to the chains: the current stack to the
      running one, field 0 of a continuation to its chain while it is unused, and the tail
      passed with it, like field 1 once a handler has set it, to the last fiber of that
      chain. */
  ghost predicate PointersOk(chains: Chains, current: Fiber, head: Fields, last: Fields, passed: Tails) {
    && Running in chains && chains[Running] != [] && current == chains[Running][0]
    && head.Keys == last.Keys
    && (forall k :: k in head ==> (head[k].Some? <==> Held(k) in chains))
    && (forall k :: Held(k) in chains ==> HeldOk(chains[Held(k)], k, head, last, passed))
    && (forall f :: Taken(f) in chains ==> chains[Taken(f)] != [] && f == chains[Taken(f)][0])
  }

  ghost predicate HeldOk(c: seq<Fiber>, k: Cont, head: Fields, last: Fields, passed: Tails) {
    && k in head && k in last && c != [] && head[k] == Some(c[0])
    && k in passed && passed[k] == Last(c) && (last[k].Some? ==> last[k].value == Last(c))
  }

  // ------------------------------------------------------------------ the free cache

  const NUM_STACK_SIZE_CLASSES: nat := 5

  /** The size class of a stack among the buckets from `b` on, where bucket `b` has stacks
      of `size` words and each next one of twice as many; -1 for a stack of no class. */
  function Bucket(wosize: nat, size: nat, b: nat): (r: int)
    requires b <= NUM_STACK_SIZE_CLASSES
    ensures -1 <= r < NUM_STACK_SIZE_CLASSES
    decreases NUM_STACK_SIZE_CLASSES - b
  {
    if b == NUM_STACK_SIZE_CLASSES then -1
    else if wosize == size then b
    else Bucket(wosize, size + size, b + 1)
  }

  function Doubled(size: nat, n: nat): nat
    decreases n
  {
    if n == 0 then size else Doubled(size + size, n - 1)
  }

  /** The stack has the size of bucket `d`, counted from one of `size` words, and of none
      before. */
  ghost predicate FirstOfSize(wosize: nat, size: nat, d: nat) {
    wosize == Doubled(size, d) && forall c: nat :: c < d ==> wosize != Doubled(size, c)
  }

  lemma {:induction false} NextOfSize(wosize: nat, size: nat, twice: nat, d: nat)
    requires d > 0 && twice == size + size
    ensures FirstOfSize(wosize, size, d) <==> wosize != size && FirstOfSize(wosize, twice, d - 1)
  {
    assert Doubled(size, 0) == size && Doubled(size, d) == Doubled(twice, d - 1);
    forall c: nat ensures Doubled(size, c + 1) == Doubled(twice, c) {
    }
    if FirstOfSize(wosize, size, d) {
      forall c: nat | c < d - 1 ensures wosize != Doubled(twice, c) {
        assert Doubled(size, c + 1) == Doubled(twice, c);
      }
    } else if wosize != size && FirstOfSize(wosize, twice, d - 1) {
      forall c: nat | c < d ensures wosize != Doubled(size, c) {
        assert c > 0 ==> Doubled(size, c) == Doubled(twice, c - 1);
      }
    }
  }

  /** A bucket is the first whose size is that of the stack. */
  lemma {:induction false} BucketMeans(wosize: nat, size: nat, b: nat, d: nat)
    requires b + d < NUM_STACK_SIZE_CLASSES
    ensures Bucket(wosize, size, b) == b + d <==> FirstOfSize(wosize, size, d)
    decreases d
  {
    BucketFrom(wosize, size + size, b + 1);
    if d > 0 {
      NextOfSize(wosize, size, size + size, d);
      BucketMeans(wosize, size + size, b + 1, d - 1);
    }
  }

  lemma {:induction false} BucketFrom(wosize: nat, size: nat, b: nat)
    requires b <= NUM_STACK_SIZE_CLASSES
    ensures Bucket(wosize, size, b) == -1 || Bucket(wosize, size, b) >= b
    decreases NUM_STACK_SIZE_CLASSES - b
  {
    if b < NUM_STACK_SIZE_CLASSES {
      BucketFrom(wosize, size + size, b + 1);
    }
  }

  /** stack_cache_bucket */
  method StackCacheBucket(wosize: nat, fiberWsz: nat) returns (r: int)
    ensures r == Bucket(wosize, fiberWsz, 0)
  {
    var size, b := fiberWsz, 0;
    while b < NUM_STACK_SIZE_CLASSES
      invariant b <= NUM_STACK_SIZE_CLASSES && Bucket(wosize, size, b) == Bucket(wosize, fiberWsz, 0)
    {
      if wosize == size {
        return b;
      }
      size, b := size + size, b + 1;
    }
    r := -1;
  }

  /** The free list of each bucket holds exactly the released fibers of that bucket. */
  ghost predicate CacheOk(cache: seq<seq<Fiber>>, bucketOf: map<Fiber, int>, place: Places) {
    && |cache| == NUM_STACK_SIZE_CLASSES
    && (forall f :: f in place ==> f in bucketOf && -1 <= bucketOf[f] < NUM_STACK_SIZE_CLASSES)
    && (forall b :: 0 <= b < |cache| ==> Distinct(cache[b]))
    && (forall b, f :: 0 <= b < |cache| ==> (f in cache[b] <==> f in place && place[f] == Released && bucketOf[f] == b))
  }

  lemma CacheKept(cache: seq<seq<Fiber>>, bucketOf: map<Fiber, int>, place: Places, place': Places)
    requires CacheOk(cache, bucketOf, place) && place'.Keys == place.Keys
    requires forall f :: f in place ==> (place'[f] == Released <==> place[f] == Released)
    ensures CacheOk(cache, bucketOf, place')
  {
  }

  lemma CacheMove(cache: seq<seq<Fiber>>, bucketOf: map<Fiber, int>, place: Places, f: Fiber, o: Holder)
    requires CacheOk(cache, bucketOf, place) && f in place && place[f] != Released
    ensures CacheOk(cache, bucketOf, place[f := In(o)])
  {
    CacheKept(cache, bucketOf, place, place[f := In(o)]);
  }

  lemma CacheRelease(cache: seq<seq<Fiber>>, bucketOf: map<Fiber, int>, place: Places, f: Fiber)
    requires CacheOk(cache, bucketOf, place) && f in place && place[f] != Released
    ensures var b := bucketOf[f];
      CacheOk(if b == -1 then cache else cache[b := [f] + cache[b]], bucketOf, place[f := Released])
  {
    var b := bucketOf[f];
    if b != -1 {
      var cache' := cache[b := [f] + cache[b]];
      forall g ensures g in cache'[b] <==> g == f || g in cache[b] {
        assert cache'[b][0] == f && cache'[b][1..] == cache[b];
      }
    }
  }

  lemma CacheReuse(cache: seq<seq<Fiber>>, bucketOf: map<Fiber, int>, place: Places, b: nat, o: Holder)
    requires CacheOk(cache, bucketOf, place) && b < |cache| && cache[b] != []
    ensures var f := cache[b][0];
      f in place && place[f] == Released && CacheOk(cache[b := cache[b][1..]], bucketOf, place[f := In(o)])
  {
    var f := cache[b][0];
    assert f in cache[b];
    var cache' := cache[b := cache[b][1..]];
    forall g ensures g in cache'[b] <==> g != f && g in cache[b] {
      if g != f && g in cache[b] {
        var i :| 0 <= i < |cache[b]| && cache[b][i] == g;
        assert cache'[b][i - 1] == g;
      }
    }
  }

  lemma CacheExtend(cache: seq<seq<Fiber>>, bucketOf: map<Fiber, int>, place: Places, f: Fiber, b: int, o: Holder)
    requires CacheOk(cache, bucketOf, place) && (f in place ==> place[f] == Released && bucketOf[f] == -1)
    requires -1 <= b < NUM_STACK_SIZE_CLASSES
    ensures CacheOk(cache, bucketOf[f := b], place[f := In(o)])
  {
  }

  // ------------------------------------------------------------------- the state

  /** All that the runtime knows of fibers, with the chains that it means. */
  datatype World = World(
    current: Fiber,                  // current_stack
    parent: Parents,                 // Stack_parent
    head: Fields,
    last: Fields,
    passed: Tails,
    bucketOf: map<Fiber, int>,       // cache_bucket
    cache: seq<seq<Fiber>>,          // stack_cache
    chains: Chains,
    place: Places)

  ghost predicate Good(w: World) {
    && Linear(w.parent, w.chains, w.place) && PointersOk(w.chains, w.current, w.head, w.last, w.passed)
    && CacheOk(w.cache, w.bucketOf, w.place)
  }

  ghost function RunningChain(w: World): seq<Fiber> {
    if Running in w.chains then w.chains[Running] else []
  }

  ghost function HeldChain(w: World, k: Cont): seq<Fiber> {
    if Held(k) in w.chains then w.chains[Held(k)] else []
  }

  ghost function TakenChain(w: World, f: Fiber): seq<Fiber> {
    if Taken(f) in w.chains then w.chains[Taken(f)] else []
  }

  ghost function BucketOf(w: World, f: Fiber): int {
    if f in w.bucketOf then w.bucketOf[f] else -1
  }

  ghost function ParentOf(w: World, f: Fiber): Option<Fiber> {
    if f in w.parent then w.parent[f] else None
  }

  ghost function PassedWith(w: World, k: Cont): Fiber {
    if k in w.passed then w.passed[k] else 0
  }

  /** The parent of the current stack is the next one of the running chain. */
  lemma CurrentParent(w: World)
    requires Good(w)
    ensures RunningChain(w) != [] && w.current == RunningChain(w)[0]
    ensures w.current in w.parent && w.parent[w.current] == Successor(RunningChain(w), 0)
    ensures w.current in w.place && w.place[w.current] == In(Running)
  {
    assert Linked(w.parent, w.chains[Running]) && AllIn(w.chains[Running], Running, w.place);
  }

  /** A chain that a continuation holds, or that was taken off one. */
  lemma ChainFacts(w: World, o: Holder)
    requires Good(w) && o in w.chains
    ensures Linked(w.parent, w.chains[o]) && w.chains[o] != []
    ensures forall f :: f in w.place ==> (w.place[f] == In(o) <==> f in w.chains[o])
    ensures forall f :: f in w.chains[o] ==> f in w.place && f in w.parent
  {
    assert AllIn(w.chains[o], o, w.place);
  }

  // ------------------------------------------------------------------- operations

  ghost function Performed(w: World, k: Cont): World
    requires |RunningChain(w)| > 1
  {
    var c := RunningChain(w);
    w.(current := c[1], parent := w.parent[c[0] := None], head := w.head[k := Some(c[0])], last := w.last[k := None],
       passed := w.passed[k := c[0]],
       chains := w.chains[Running := c[1..]][Held(k) := [c[0]]], place := w.place[c[0] := In(Held(k))])
  }

  lemma PerformPointers(chains: Chains, current: Fiber, head: Fields, last: Fields, passed: Tails, k: Cont)
    requires PointersOk(chains, current, head, last, passed) && k !in head && |chains[Running]| > 1
    ensures var c := chains[Running];
      Held(k) !in chains
      && PointersOk(chains[Running := c[1..]][Held(k) := [c[0]]], c[1], head[k := Some(c[0])], last[k := None],
                    passed[k := c[0]])
  {
  }

  lemma PerformedGood(w: World, k: Cont)
    requires Good(w) && |RunningChain(w)| > 1 && k !in w.head
    ensures Good(Performed(w, k))
  {
    PerformPointers(w.chains, w.current, w.head, w.last, w.passed, k);
    PerformLinear(w.parent, w.chains, w.place, k);
    CurrentParent(w);
    CacheMove(w.cache, w.bucketOf, w.place, w.current, Held(k));
  }

  /** The tail that RESUME gets for a chain: none for a chain of one fiber, or its last
      fiber. */
  ghost predicate TailOf(tail: Option<Fiber>, c: seq<Fiber>) {
    c != [] && if tail == None then |c| == 1 else tail.value == Last(c)
  }

  ghost function Reperformed(w: World, k: Cont): World
    requires |RunningChain(w)| > 1 && HeldChain(w, k) != []
  {
    var c, d := RunningChain(w), HeldChain(w, k);
    w.(current := c[1], parent := w.parent[c[0] := None][PassedWith(w, k) := Some(c[0])], passed := w.passed[k := c[0]],
       chains := w.chains[Running := c[1..]][Held(k) := d + [c[0]]], place := w.place[c[0] := In(Held(k))])
  }

  lemma ReperformPointers(chains: Chains, current: Fiber, head: Fields, last: Fields, passed: Tails, k: Cont)
    requires PointersOk(chains, current, head, last, passed) && Held(k) in chains && k in last && last[k] == None
    requires |chains[Running]| > 1
    ensures PointersOk(chains[Running := chains[Running][1..]][Held(k) := chains[Held(k)] + [chains[Running][0]]],
                       chains[Running][1], head, last, passed[k := chains[Running][0]])
  {
    var c, d := chains[Running], chains[Held(k)];
    assert HeldOk(d, k, head, last, passed);
    assert (d + [c[0]])[0] == d[0] && Last(d + [c[0]]) == c[0];
  }

  lemma ReperformedGood(w: World, k: Cont)
    requires Good(w) && |RunningChain(w)| > 1 && HeldChain(w, k) != [] && k in w.last && w.last[k] == None
    ensures Good(Reperformed(w, k))
  {
    ReperformPointers(w.chains, w.current, w.head, w.last, w.passed, k);
    assert HeldOk(w.chains[Held(k)], k, w.head, w.last, w.passed);
    ReperformLinear(w.parent, w.chains, w.place, k);
    CurrentParent(w);
    CacheMove(w.cache, w.bucketOf, w.place, w.current, Held(k));
  }

  /** The chain of `k` handed over, known from now on by its first fiber. */
  ghost function Used(w: World, k: Cont): World {
    var c := HeldChain(w, k);
    if c == [] then w
    else w.(head := w.head[k := None], chains := (w.chains - {Held(k)})[Taken(c[0]) := c],
            place := Moved(w.place, c, In(Taken(c[0]))))
  }

  lemma UsePointers(chains: Chains, current: Fiber, head: Fields, last: Fields, passed: Tails, k: Cont)
    requires PointersOk(chains, current, head, last, passed) && Held(k) in chains
    ensures var c := chains[Held(k)];
      c != [] && PointersOk((chains - {Held(k)})[Taken(c[0]) := c], current, head[k := None], last, passed)
  {
    assert HeldOk(chains[Held(k)], k, head, last, passed);
  }

  /** The name is not in use: the fiber is in the chain of a continuation. */
  lemma NameIsFree(w: World, k: Cont)
    requires Good(w) && Held(k) in w.chains
    ensures w.chains[Held(k)] != [] && Taken(w.chains[Held(k)][0]) !in w.chains
  {
    ChainFacts(w, Held(k));
    var f := w.chains[Held(k)][0];
    if Taken(f) in w.chains {
      ChainFacts(w, Taken(f));
    }
  }

  lemma MovedCache(w: World, o: Holder, p: Place)
    requires Good(w) && o in w.chains && p != Released
    ensures CacheOk(w.cache, w.bucketOf, Moved(w.place, w.chains[o], p))
  {
    ChainFacts(w, o);
    CacheKept(w.cache, w.bucketOf, w.place, Moved(w.place, w.chains[o], p));
  }

  lemma UsedGood(w: World, k: Cont)
    requires Good(w)
    ensures Good(Used(w, k))
  {
    if HeldChain(w, k) != [] {
      NameIsFree(w, k);
      UsePointers(w.chains, w.current, w.head, w.last, w.passed, k);
      HandOverLinear(w.parent, w.chains, w.place, Held(k), Taken(HeldChain(w, k)[0]));
      MovedCache(w, Held(k), In(Taken(HeldChain(w, k)[0])));
    }
  }

  /** The chain that starts at `f` in front of the running one, whole and in order. */
  ghost function Resumed(w: World, f: Fiber): World
    requires TakenChain(w, f) != []
  {
    var c, d := RunningChain(w), TakenChain(w, f);
    w.(current := f, parent := w.parent[Last(d) := Some(w.current)],
       chains := (w.chains - {Taken(f)})[Running := d + c], place := Moved(w.place, d, In(Running)))
  }

  lemma ResumePointers(chains: Chains, current: Fiber, head: Fields, last: Fields, passed: Tails, f: Fiber)
    requires PointersOk(chains, current, head, last, passed) && Taken(f) in chains
    ensures PointersOk((chains - {Taken(f)})[Running := chains[Taken(f)] + chains[Running]], f, head, last, passed)
  {
  }

  lemma ResumedGood(w: World, f: Fiber)
    requires Good(w) && TakenChain(w, f) != []
    ensures Good(Resumed(w, f))
  {
    ResumePointers(w.chains, w.current, w.head, w.last, w.passed, f);
    ResumeLinear(w.parent, w.chains, w.place, Taken(f));
    MovedCache(w, Taken(f), In(Running));
  }

  /** caml_continuation_replace: the chain goes back to the continuation. */
  ghost function Replaced(w: World, k: Cont, f: Fiber): World {
    var d := TakenChain(w, f);
    w.(head := w.head[k := Some(f)], chains := (w.chains - {Taken(f)})[Held(k) := d],
       place := Moved(w.place, d, In(Held(k))))
  }

  lemma ReplacePointers(chains: Chains, current: Fiber, head: Fields, last: Fields, passed: Tails, k: Cont, f: Fiber)
    requires PointersOk(chains, current, head, last, passed) && Taken(f) in chains && k in head && head[k] == None
    requires chains[Taken(f)] != [] && (last[k].Some? ==> last[k].value == Last(chains[Taken(f)]))
    requires k in passed && passed[k] == Last(chains[Taken(f)])
    ensures PointersOk((chains - {Taken(f)})[Held(k) := chains[Taken(f)]], current, head[k := Some(f)], last, passed)
  {
  }

  lemma ReplacedGood(w: World, k: Cont, f: Fiber)
    requires Good(w) && TakenChain(w, f) != [] && k in w.head && k in w.last && w.head[k] == None
    requires w.last[k].Some? ==> w.last[k].value == Last(TakenChain(w, f))
    requires k in w.passed && w.passed[k] == Last(TakenChain(w, f))
    ensures Good(Replaced(w, k, f))
  {
    ReplacePointers(w.chains, w.current, w.head, w.last, w.passed, k, f);
    HandOverLinear(w.parent, w.chains, w.place, Taken(f), Held(k));
    MovedCache(w, Taken(f), In(Held(k)));
  }

  /** caml_free_stack: to the front of the free list of its bucket, if it has one. */
  function Freed(cache: seq<seq<Fiber>>, b: int, f: Fiber): seq<seq<Fiber>> {
    if 0 <= b < |cache| then cache[b := [f] + cache[b]] else cache
  }

  /** The running fiber released, its parent running. */
  ghost function Finished(w: World): World
    requires |RunningChain(w)| > 1
  {
    var c := RunningChain(w);
    w.(current := c[1], chains := w.chains[Running := c[1..]], place := w.place[c[0] := Released],
       cache := Freed(w.cache, BucketOf(w, c[0]), c[0]))
  }

  lemma FinishPointers(chains: Chains, current: Fiber, head: Fields, last: Fields, passed: Tails)
    requires PointersOk(chains, current, head, last, passed) && |chains[Running]| > 1
    ensures PointersOk(chains[Running := chains[Running][1..]], chains[Running][1], head, last, passed)
  {
  }

  lemma FinishedGood(w: World)
    requires Good(w) && |RunningChain(w)| > 1
    ensures Good(Finished(w))
  {
    CurrentParent(w);
    FinishPointers(w.chains, w.current, w.head, w.last, w.passed);
    FinishLinear(w.parent, w.chains, w.place);
    CacheRelease(w.cache, w.bucketOf, w.place, w.current);
  }

  /** The first fiber of the chain released and the continuation used up; nothing holds
      the others any more. */
  ghost function Dropped(w: World, k: Cont): World
    requires HeldChain(w, k) != []
  {
    var c := HeldChain(w, k);
    w.(head := w.head[k := None], chains := w.chains - {Held(k)}, place := Moved(w.place, c, Lost)[c[0] := Released],
       cache := Freed(w.cache, BucketOf(w, c[0]), c[0]))
  }

  lemma DropPointers(chains: Chains, current: Fiber, head: Fields, last: Fields, passed: Tails, k: Cont)
    requires PointersOk(chains, current, head, last, passed) && Held(k) in chains
    ensures PointersOk(chains - {Held(k)}, current, head[k := None], last, passed)
  {
    assert HeldOk(chains[Held(k)], k, head, last, passed);
  }

  lemma DroppedGood(w: World, k: Cont)
    requires Good(w) && HeldChain(w, k) != []
    ensures Good(Dropped(w, k))
    ensures NoneLost(w.place) ==> (NoneLost(Dropped(w, k).place) <==> |HeldChain(w, k)| == 1)
  {
    DropPointers(w.chains, w.current, w.head, w.last, w.passed, k);
    DropLinear(w.parent, w.chains, w.place, Held(k));
    MovedCache(w, Held(k), Lost);
    ChainFacts(w, Held(k));
    CacheRelease(w.cache, w.bucketOf, Moved(w.place, w.chains[Held(k)], Lost), w.chains[Held(k)][0]);
  }

  /** A stack that the allocator may return: never seen, or released and not cached. */
  ghost predicate Fresh(w: World, f: Fiber) {
    f in w.place ==> w.place[f] == Released && f in w.bucketOf && w.bucketOf[f] == -1
  }

  predicate Cached(cache: seq<seq<Fiber>>, b: int) {
    0 <= b < |cache| && cache[b] != []
  }

  /** The stack that an allocation gets: the first of the free list, else a fresh one. */
  function Chosen(cache: seq<seq<Fiber>>, b: int, spare: Fiber): Fiber {
    if Cached(cache, b) then cache[b][0] else spare
  }

  function CacheAfter(cache: seq<seq<Fiber>>, b: int): seq<seq<Fiber>> {
    if Cached(cache, b) then cache[b := cache[b][1..]] else cache
  }

  lemma ChosenCache(w: World, b: int, spare: Fiber, o: Holder)
    requires Good(w) && Fresh(w, spare) && -1 <= b < NUM_STACK_SIZE_CLASSES
    ensures var f := Chosen(w.cache, b, spare);
      && (f !in w.place || w.place[f] == Released)
      && CacheOk(CacheAfter(w.cache, b), w.bucketOf[f := b], w.place[f := In(o)])
  {
    if 0 <= b && w.cache[b] != [] {
      CacheReuse(w.cache, w.bucketOf, w.place, b, o);
      assert w.cache[b][0] in w.cache[b];
      assert w.bucketOf[w.cache[b][0] := b] == w.bucketOf;
    } else {
      CacheExtend(w.cache, w.bucketOf, w.place, spare, b, o);
    }
  }

  /** caml_alloc_stack: a chain of one new fiber. */
  ghost function Allocated(w: World, b: int, spare: Fiber): World {
    var f := Chosen(w.cache, b, spare);
    w.(parent := w.parent[f := None], bucketOf := w.bucketOf[f := b], cache := CacheAfter(w.cache, b),
       chains := w.chains[Taken(f) := [f]], place := w.place[f := In(Taken(f))])
  }

  lemma AllocPointers(chains: Chains, current: Fiber, head: Fields, last: Fields, passed: Tails, f: Fiber)
    requires PointersOk(chains, current, head, last, passed)
    ensures PointersOk(chains[Taken(f) := [f]], current, head, last, passed)
  {
  }

  lemma AllocatedGood(w: World, b: int, spare: Fiber)
    requires Good(w) && Fresh(w, spare) && -1 <= b < NUM_STACK_SIZE_CLASSES
    ensures Good(Allocated(w, b, spare))
  {
    var f := Chosen(w.cache, b, spare);
    ChosenCache(w, b, spare, Taken(f));
    if Taken(f) in w.chains {
      ChainFacts(w, Taken(f));
    }
    AllocLinear(w.parent, w.chains, w.place, f);
    AllocPointers(w.chains, w.current, w.head, w.last, w.passed, f);
  }

  /** caml_try_realloc_stack: the running fiber moves to a new stack, the old one is
      released. */
  ghost function Reallocated(w: World, b: int, spare: Fiber): World
    requires RunningChain(w) != []
  {
    var c, g := RunningChain(w), Chosen(w.cache, b, spare);
    w.(current := g, parent := w.parent[g := ParentOf(w, c[0])], bucketOf := w.bucketOf[g := b],
       cache := Freed(CacheAfter(w.cache, b), BucketOf(w, c[0]), c[0]),
       chains := w.chains[Running := [g] + c[1..]], place := w.place[c[0] := Released][g := In(Running)])
  }

  lemma ReallocPointers(chains: Chains, current: Fiber, head: Fields, last: Fields, passed: Tails, g: Fiber)
    requires PointersOk(chains, current, head, last, passed)
    ensures PointersOk(chains[Running := [g] + chains[Running][1..]], g, head, last, passed)
  {
  }

  lemma ReallocCache(w: World, b: int, spare: Fiber)
    requires Good(w) && RunningChain(w) != [] && Fresh(w, spare) && -1 <= b < NUM_STACK_SIZE_CLASSES
    ensures var w' := Reallocated(w, b, spare);
      CacheOk(w'.cache, w'.bucketOf, w'.place)
  {
    var f, g := w.current, Chosen(w.cache, b, spare);
    CurrentParent(w);
    ChosenCache(w, b, spare, Running);
    var bucketOf', place' := w.bucketOf[g := b], w.place[g := In(Running)];
    assert f != g && f in place' && bucketOf'[f] == w.bucketOf[f];
    CacheRelease(CacheAfter(w.cache, b), bucketOf', place', f);
    assert place'[f := Released] == w.place[f := Released][g := In(Running)];
  }

  lemma ReallocatedGood(w: World, b: int, spare: Fiber)
    requires Good(w) && RunningChain(w) != [] && Fresh(w, spare) && -1 <= b < NUM_STACK_SIZE_CLASSES
    ensures Good(Reallocated(w, b, spare))
  {
    CurrentParent(w);
    ChosenCache(w, b, spare, Running);
    ReallocLinear(w.parent, w.chains, w.place, Chosen(w.cache, b, spare));
    ReallocPointers(w.chains, w.current, w.head, w.last, w.passed, Chosen(w.cache, b, spare));
    ReallocCache(w, b, spare);
  }

  // -------------------------------------------------------------------- whole runs

  /** The operations of the interpreter and of the library on fibers. */
  datatype Op =
    | Alloc(b: int, spare: Fiber)
    | Realloc(b: int, spare: Fiber)
    | Perform(k: Cont)
    | Reperform(k: Cont)
    | SetLastFiber(k: Cont)
    | Use(k: Cont)
    | Resume(f: Fiber)
    | Replace(k: Cont, f: Fiber)
    | Finish
    | Drop(k: Cont)

  /** When an operation takes place. What the interpreter tests itself (a parent, a
      continuation not used yet) is part of it; an effect is passed on, or its
      continuation handed to a handler, but not both; and a chain put back is the one that
      was taken. */
  ghost predicate Allowed(w: World, op: Op) {
    match op
    case Alloc(b, spare) => Fresh(w, spare) && -1 <= b < NUM_STACK_SIZE_CLASSES
    case Realloc(b, spare) => RunningChain(w) != [] && Fresh(w, spare) && -1 <= b < NUM_STACK_SIZE_CLASSES
    case Perform(k) => |RunningChain(w)| > 1 && k !in w.head
    case Reperform(k) => |RunningChain(w)| > 1 && HeldChain(w, k) != [] && k in w.last && w.last[k] == None
    case SetLastFiber(k) => HeldChain(w, k) != []
    case Use(k) => true
    case Resume(f) => TakenChain(w, f) != []
    case Replace(k, f) =>
      && TakenChain(w, f) != [] && k in w.head && k in w.last && w.head[k] == None
      && (w.last[k].Some? ==> w.last[k].value == Last(TakenChain(w, f)))
      && k in w.passed && w.passed[k] == Last(TakenChain(w, f))
    case Finish => |RunningChain(w)| > 1
    case Drop(k) => HeldChain(w, k) != []
  }

  ghost function Apply(w: World, op: Op): World
    requires Allowed(w, op)
  {
    match op
    case Alloc(b, spare) => Allocated(w, b, spare)
    case Realloc(b, spare) => Reallocated(w, b, spare)
    case Perform(k) => Performed(w, k)
    case Reperform(k) => Reperformed(w, k)
    case SetLastFiber(k) => w.(last := w.last[k := Some(PassedWith(w, k))])
    case Use(k) => Used(w, k)
    case Resume(f) => Resumed(w, f)
    case Replace(k, f) => Replaced(w, k, f)
    case Finish => Finished(w)
    case Drop(k) => Dropped(w, k)
  }

  lemma LastPointers(chains: Chains, current: Fiber, head: Fields, last: Fields, passed: Tails, k: Cont)
    requires PointersOk(chains, current, head, last, passed) && Held(k) in chains
    ensures k in passed && PointersOk(chains, current, head, last[k := Some(passed[k])], passed)
  {
    assert HeldOk(chains[Held(k)], k, head, last, passed);
    forall j | Held(j) in chains ensures HeldOk(chains[Held(j)], j, head, last[k := Some(passed[k])], passed) {
      assert HeldOk(chains[Held(j)], j, head, last, passed);
    }
  }

  /** Every operation keeps the fibers where they belong. */
  lemma StepGood(w: World, op: Op)
    requires Good(w) && Allowed(w, op)
    ensures Good(Apply(w, op))
  {
    match op
    case Alloc(b, spare) => AllocatedGood(w, b, spare);
    case Realloc(b, spare) => ReallocatedGood(w, b, spare);
    case Perform(k) => PerformedGood(w, k);
    case Reperform(k) => ReperformedGood(w, k);
    case SetLastFiber(k) => LastPointers(w.chains, w.current, w.head, w.last, w.passed, k);
    case Use(k) => UsedGood(w, k);
    case Resume(f) => ResumedGood(w, f);
    case Replace(k, f) => ReplacedGood(w, k, f);
    case Finish => FinishedGood(w);
    case Drop(k) => DroppedGood(w, k);
  }

  /** Nothing but dropping a continuation of several fibers loses one. */
  ghost predicate Loses(w: World, op: Op) {
    op.Drop? && |HeldChain(w, op.k)| > 1
  }

  lemma StepLost(w: World, op: Op)
    requires Good(w) && Allowed(w, op) && NoneLost(w.place)
    ensures NoneLost(Apply(w, op).place) <==> !Loses(w, op)
  {
    if op.Drop? {
      DroppedGood(w, op.k);
    }
  }

  ghost predicate Reaches(w: World, ops: seq<Op>, w': World)
    decreases |ops|
  {
    if ops == [] then w' == w
    else Allowed(w, ops[0]) && !Loses(w, ops[0]) && Reaches(Apply(w, ops[0]), ops[1..], w')
  }

  /** Installing a handler: a new fiber runs in front of the others. */
  lemma Install(w: World, f: Fiber) returns (ops: seq<Op>, w': World)
    requires f !in w.place
    ensures Reaches(w, ops, w') && RunningChain(w') == [f] + RunningChain(w)
    ensures w'.head == w.head && forall g :: g in w'.place <==> g == f || g in w.place
  {
    var w1 := Apply(w, Alloc(-1, f));
    assert RunningChain(w1) == RunningChain(w) && TakenChain(w1, f) == [f];
    w' := Apply(w1, Resume(f));
    assert Reaches(w', [], w');
    ReachesStep(w1, Resume(f), [], w');
    ops := [Alloc(-1, f)] + ([Resume(f)] + []);
    ReachesStep(w, Alloc(-1, f), [Resume(f)] + [], w');
  }

  /** An effect that the innermost handler passes on. */
  lemma PassOn(w: World, k: Cont) returns (ops: seq<Op>, w': World)
    requires |RunningChain(w)| > 2 && k !in w.head
    ensures Reaches(w, ops, w') && HeldChain(w', k) == RunningChain(w)[..2]
  {
    var w1 := Apply(w, Perform(k));
    assert HeldChain(w1, k) == [RunningChain(w)[0]] && RunningChain(w1) == RunningChain(w)[1..];
    w' := Apply(w1, Reperform(k));
    assert Reaches(w', [], w');
    ReachesStep(w1, Reperform(k), [], w');
    ops := [Perform(k)] + ([Reperform(k)] + []);
    ReachesStep(w, Perform(k), [Reperform(k)] + [], w');
  }

  lemma {:induction false} ReachesAppend(w: World, ops: seq<Op>, w1: World, ops': seq<Op>, w2: World)
    requires Reaches(w, ops, w1) && Reaches(w1, ops', w2)
    ensures Reaches(w, ops + ops', w2)
    decreases |ops|
  {
    if ops == [] {
      assert ops + ops' == ops';
    } else {
      ReachesAppend(Apply(w, ops[0]), ops[1..], w1, ops', w2);
      assert (ops + ops')[1..] == ops[1..] + ops';
    }
  }

  /** A fiber does get lost: two handlers, an effect that the inner one passes on, and
      the outer one drops the continuation. */
  lemma DropCounterexample(w: World) returns (ops: seq<Op>, w': World)
    requires Started(w, 0)
    ensures Reaches(w, ops, w') && Allowed(w', Drop(7)) && Loses(w', Drop(7))
  {
    var w1;
    ops, w1 := TwoHandlers(w);
    var ops';
    ops', w' := PassOn(w1, 7);
    ReachesAppend(w, ops, w1, ops', w');
    ops := ops + ops';
    assert |HeldChain(w', 7)| == 2;
  }

  lemma TwoHandlers(w: World) returns (ops: seq<Op>, w': World)
    requires Started(w, 0)
    ensures Reaches(w, ops, w') && |RunningChain(w')| == 3 && 7 !in w'.head
  {
    var ops1, w1 := Install(w, 1);
    var ops2;
    ops2, w' := Install(w1, 2);
    ReachesAppend(w, ops1, w1, ops2, w');
    ops := ops1 + ops2;
    assert |RunningChain(w)| == 1;
  }

  lemma ReachesStep(w: World, op: Op, ops: seq<Op>, w': World)
    requires Allowed(w, op) && !Loses(w, op) && Reaches(Apply(w, op), ops, w')
    ensures Reaches(w, [op] + ops, w')
  {
    assert ([op] + ops)[1..] == ops;
  }

  /** Linearity over every run: each fiber is in exactly one of the running chain, the
      chain of one continuation not used yet, one chain taken and not resumed yet, and
      the released ones. */
  lemma {:induction false} RunLinear(w: World, ops: seq<Op>, w': World)
    requires Good(w) && NoneLost(w.place) && Reaches(w, ops, w')
    ensures Good(w') && NoneLost(w'.place)
    decreases |ops|
  {
    if ops != [] {
      StepGood(w, ops[0]);
      StepLost(w, ops[0]);
      RunLinear(Apply(w, ops[0]), ops[1..], w');
    }
  }

  /** What the invariant says of one fiber, in terms of the chains alone. */
  lemma ExactlyOnePlace(w: World, f: Fiber, o: Holder, i: nat, o': Holder, j: nat)
    requires Good(w) && NoneLost(w.place) && f in w.place
    requires o in w.chains && i < |w.chains[o]| && w.chains[o][i] == f
    ensures w.place[f] == In(o)
    ensures o' in w.chains && j < |w.chains[o']| && w.chains[o'][j] == f ==> o' == o && j == i
  {
    ChainFacts(w, o);
    if o' in w.chains {
      ChainFacts(w, o');
    }
  }

  /** Over every run, the tail passed to a handler along with a continuation is the last
      fiber of the chain that the continuation holds, whatever happens before the handler
      passes the effect on or sets field 1. */
  lemma TailKept(w: World, ops: seq<Op>, w': World, k: Cont)
    requires Good(w) && NoneLost(w.place) && Reaches(w, ops, w') && HeldChain(w', k) != []
    ensures k in w'.passed && w'.passed[k] == Last(HeldChain(w', k))
    ensures k in w'.last && (w'.last[k].Some? ==> w'.last[k] == Some(w'.passed[k]))
  {
    RunLinear(w, ops, w');
    assert HeldOk(w'.chains[Held(k)], k, w'.head, w'.last, w'.passed);
  }

  /** A continuation resumes at most once: after it is used it has no chain, whatever
      runs in between, unless the chain is put back. */
  lemma {:induction false} UsedOnce(w: World, ops: seq<Op>, w': World, k: Cont)
    requires Good(w) && Reaches(w, ops, w') && k in w.head && w.head[k] == None
    requires forall i :: 0 <= i < |ops| ==> !(ops[i].Replace? && ops[i].k == k)
    ensures k in w'.head && w'.head[k] == None && Used(w', k) == w'
    decreases |ops|
  {
    assert HeldChain(w, k) == [];
    if ops != [] {
      StepGood(w, ops[0]);
      StepUsed(w, ops[0], k);
      UsedOnce(Apply(w, ops[0]), ops[1..], w', k);
    }
  }

  lemma StepUsed(w: World, op: Op, k: Cont)
    requires Good(w) && Allowed(w, op) && k in w.head && w.head[k] == None && !(op.Replace? && op.k == k)
    ensures k in Apply(w, op).head && Apply(w, op).head[k] == None
  {
  }

  // ------------------------------------------------------------------ the machine

  ghost predicate Started(w: World, main: Fiber) {
    w == World(main, map[main := None], map[], map[], map[], map[main := -1], seq(NUM_STACK_SIZE_CLASSES, _ => []),
               map[Running := [main]], map[main := In(Running)])
  }

  lemma StartedGood(w: World, main: Fiber)
    requires Started(w, main)
    ensures Good(w) && NoneLost(w.place)
  {
    assert AllIn([main], Running, w.place) && Linked(w.parent, [main]);
  }

  ghost predicate StepsTo(w: World, op: Op, w': World) {
    Allowed(w, op) && w' == Apply(w, op)
  }

  ghost predicate Stepped(trace: seq<World>, i: nat)
    requires i + 1 < |trace|
  {
    CanStep(trace[i], trace[i + 1])
  }

  ghost predicate CanStep(w: World, w': World) {
    exists op :: StepsTo(w, op, w')
  }

  /** The states of a run, from a domain with its main stack on. */
  ghost predicate Trace(trace: seq<World>) {
    && trace != [] && (exists main :: Started(trace[0], main))
    && forall i: nat :: i + 1 < |trace| ==> Stepped(trace, i)
  }

  ghost function Now(trace: seq<World>): World
    requires trace != []
  {
    trace[|trace| - 1]
  }

  lemma {:induction false} TraceGood(trace: seq<World>, n: nat)
    requires Trace(trace) && n < |trace|
    ensures Good(trace[n])
    decreases n
  {
    if n == 0 {
      var main :| Started(trace[0], main);
      StartedGood(trace[0], main);
    } else {
      TraceGood(trace, n - 1);
      assert Stepped(trace, n - 1);
      var op :| StepsTo(trace[n - 1], op, trace[n]);
      StepGood(trace[n - 1], op);
    }
  }

  lemma TraceExtend(trace: seq<World>, op: Op)
    requires Trace(trace) && Allowed(Now(trace), op)
    ensures Trace(trace + [Apply(Now(trace), op)])
  {
    var trace' := trace + [Apply(Now(trace), op)];
    assert trace'[0] == trace[0];
    forall i: nat | i + 1 < |trace'| ensures Stepped(trace', i) {
      if i + 1 < |trace| {
        assert Stepped(trace, i);
        var step :| StepsTo(trace[i], step, trace[i + 1]);
        assert StepsTo(trace'[i], step, trace'[i + 1]);
      } else {
        assert StepsTo(trace'[i], op, trace'[i + 1]);
      }
    }
  }

  /** What holds of the current stack in every state of a run. */
  lemma CurrentNow(trace: seq<World>)
    requires Trace(trace)
    ensures var w := Now(trace);
      && RunningChain(w) != [] && w.current == RunningChain(w)[0]
      && w.current in w.parent && w.parent[w.current] == Successor(RunningChain(w), 0)
      && w.current in w.bucketOf && |w.cache| == NUM_STACK_SIZE_CLASSES
  {
    TraceGood(trace, |trace| - 1);
    CurrentParent(Now(trace));
  }

  /** What holds of a continuation in every state of a run. */
  lemma ContNow(trace: seq<World>, k: Cont)
    requires Trace(trace) && k in Now(trace).head
    ensures var w := Now(trace);
      && k in w.last && (w.head[k].Some? <==> HeldChain(w, k) != [])
      && (HeldChain(w, k) != [] ==> HeldOk(HeldChain(w, k), k, w.head, w.last, w.passed)
                                    && Held(k) in w.chains && HeldChain(w, k)[0] in w.bucketOf)
      && (HeldChain(w, k) == [] ==> Held(k) !in w.chains)
      && (HeldChain(w, k) != [] ==> Taken(HeldChain(w, k)[0]) !in w.chains)
  {
    TraceGood(trace, |trace| - 1);
    var w := Now(trace);
    if Held(k) in w.chains {
      NameIsFree(w, k);
      ChainFacts(w, Held(k));
    }
  }

  /** The loop to the end of a chain. */
  method FollowParents(parent: Parents, f: Fiber, ghost c: seq<Fiber>) returns (stk: Fiber)
    requires Linked(parent, c) && f == c[0]
    ensures stk == Last(c)
  {
    ghost var i := 0;
    stk := f;
    while parent[stk] != None
      invariant 0 <= i < |c| && stk == c[i] && stk in parent && parent[stk] == Successor(c, i)
      decreases |c| - i
    {
      stk, i := parent[stk].value, i + 1;
      assert parent[c[i]] == Successor(c, i);
    }
  }

  /** The closures of a handler, for values, exceptions and effects. */
  datatype Handler = Handler(hval: nat, hexn: nat, heff: nat)

  class Machine {
    var current: Fiber
    var parent: Parents
    var handler: map<Fiber, Handler>
    var head: Fields
    var last: Fields
    var passed: Tails
    var bucketOf: map<Fiber, int>
    var cache: seq<seq<Fiber>>
    ghost var trace: seq<World>

    /** The fields are those of the last state of a run. */
    ghost predicate Valid()
      reads this
    {
      && Trace(trace)
      && var w := Now(trace);
         && w.current == current && w.parent == parent && w.head == head && w.last == last && w.passed == passed
         && w.bucketOf == bucketOf && w.cache == cache
    }

    constructor (main: Fiber)
      ensures Valid() && |trace| == 1 && Started(Now(trace), main)
    {
      current, parent, handler := main, map[main := None], map[];
      head, last, passed, bucketOf := map[], map[], map[], map[main := -1];
      cache := seq(NUM_STACK_SIZE_CLASSES, _ => []);
      trace := [World(main, map[main := None], map[], map[], map[], map[main := -1],
                      seq(NUM_STACK_SIZE_CLASSES, _ => []), map[Running := [main]], map[main := In(Running)])];
      new;
      assert Started(trace[0], main);
    }

    /** PERFORM, with `k` the continuation it allocates; false when no handler is left,
        in which case nothing moves and Unhandled is raised on the current stack. */
    method PerformEffect(k: Cont) returns (handled: bool)
      requires Valid() && k !in head
      modifies this`current, this`parent, this`head, this`last, this`passed, this`trace
      ensures Valid() && handled == (|RunningChain(old(Now(trace)))| > 1)
      ensures !handled ==> trace == old(trace)
      ensures handled ==> trace == old(trace) + [Performed(old(Now(trace)), k)]
      ensures handled ==> k in passed && TailOf(Some(passed[k]), HeldChain(Now(trace), k))
    {
      CurrentNow(trace);
      var tail := current;
      handled := parent[current] != None;
      if handled {
        TraceExtend(trace, Perform(k));
        current, parent := parent[tail].value, parent[tail := None];
        head, last, passed := head[k := Some(tail)], last[k := None], passed[k := tail];
        trace := trace + [Performed(Now(trace), k)];
      }
    }

    /** caml_continuation_use_noexc: hands the chain over once, then nothing. */
    method UseNoexc(k: Cont) returns (stack: Option<Fiber>)
      requires Valid() && k in head
      modifies this`head, this`trace
      ensures Valid() && stack == old(head[k]) && head == old(head)[k := None]
      ensures trace == old(trace) + [Used(old(Now(trace)), k)]
      ensures stack.Some? == (HeldChain(old(Now(trace)), k) != [])
      ensures stack.Some? ==> TakenChain(Now(trace), stack.value) == HeldChain(old(Now(trace)), k)
      ensures stack.Some? ==> TailOf(Some(Last(HeldChain(old(Now(trace)), k))), TakenChain(Now(trace), stack.value))
    {
      ContNow(trace, k);
      TraceExtend(trace, Use(k));
      stack := head[k];
      head := head[k := None];
      trace := trace + [Used(Now(trace), k)];
    }

    /** RESUME of a stack that is not NULL: the chain that starts at `f` goes in front of
        the running one. */
    method ResumeStack(f: Fiber, tail: Option<Fiber>)
      requires Valid() && TailOf(tail, TakenChain(Now(trace), f))
      modifies this`current, this`parent, this`trace
      ensures Valid() && trace == old(trace) + [Resumed(old(Now(trace)), f)]
      ensures RunningChain(Now(trace)) == TakenChain(old(Now(trace)), f) + RunningChain(old(Now(trace)))
    {
      TraceExtend(trace, Resume(f));
      TakenNow(trace, f);
      var end := if tail == None then f else tail.value;
      parent := parent[end := Some(current)];
      current := f;
      trace := trace + [Resumed(Now(trace), f)];
    }

    /** REPERFORMTERM, with the tail that the handler was passed: the effect goes on to
        the next handler, and the running fiber to the end of the captured chain. At the
        outermost handler the continuation is resumed at once, to raise Unhandled where
        the effect was performed. */
    method ReperformEffect(k: Cont) returns (handled: bool)
      requires Valid() && k in head && head[k].Some? && k in last && last[k] == None
      modifies this`current, this`parent, this`head, this`passed, this`trace
      ensures Valid() && handled == (|RunningChain(old(Now(trace)))| > 1) && HeldChain(old(Now(trace)), k) != []
      ensures handled ==> trace == old(trace) + [Reperformed(old(Now(trace)), k)]
      ensures handled ==> HeldChain(Now(trace), k) == HeldChain(old(Now(trace)), k) + [old(current)]
      ensures handled ==> k in passed && TailOf(Some(passed[k]), HeldChain(Now(trace), k))
      ensures !handled ==>
        RunningChain(Now(trace)) == HeldChain(old(Now(trace)), k) + RunningChain(old(Now(trace)))
      ensures !handled ==> head == old(head)[k := None] && HeldChain(Now(trace), k) == []
    {
      CurrentNow(trace);
      ContNow(trace, k);
      var self, tail := current, passed[k];
      handled := parent[current] != None;
      if handled {
        TraceExtend(trace, Reperform(k));
        current := parent[self].value;
        parent := parent[self := None][tail := Some(self)];
        passed := passed[k := self];
        trace := trace + [Reperformed(Now(trace), k)];
      } else {
        var stack := UseNoexc(k);
        ResumeStack(stack.value, Some(tail));
      }
    }

    /** A handler that takes the effect records the tail that it was passed: the last
        fiber of the chain. */
    method SetLast(k: Cont)
      requires Valid() && k in head && head[k].Some?
      modifies this`last, this`trace
      ensures Valid() && HeldChain(Now(trace), k) == HeldChain(old(Now(trace)), k) != []
      ensures last == old(last)[k := Some(Last(HeldChain(Now(trace), k)))]
      ensures trace == old(trace) + [Apply(old(Now(trace)), SetLastFiber(k))]
    {
      ContNow(trace, k);
      TraceExtend(trace, SetLastFiber(k));
      last := last[k := Some(passed[k])];
      trace := trace + [Apply(Now(trace), SetLastFiber(k))];
    }

    /** continue and discontinue: the first call resumes the captured chain, in front of
        the running one and in order; every other call finds the continuation already
        resumed. */
    method Continue(k: Cont) returns (resumed: bool)
      requires Valid() && k in head && k in last && (HeldChain(Now(trace), k) != [] ==> last[k].Some?)
      modifies this`current, this`parent, this`head, this`trace
      ensures Valid() && head == old(head)[k := None]
      ensures resumed == (HeldChain(old(Now(trace)), k) != [])
      ensures RunningChain(Now(trace)) == HeldChain(old(Now(trace)), k) + RunningChain(old(Now(trace)))
      ensures HeldChain(Now(trace), k) == []
    {
      ContNow(trace, k);
      ghost var w := Now(trace);
      assert [] + RunningChain(w) == RunningChain(w);
      var stack := UseNoexc(k);
      resumed := stack.Some?;
      if resumed {
        ResumeStack(stack.value, last[k]);
      }
    }

    /** The end of the fiber, by do_return or by an exception that no trap of the fiber
        catches: back to the parent, or out of the interpreter when there is none. */
    method FinishFiber() returns (toParent: bool)
      requires Valid()
      modifies this`current, this`cache, this`trace
      ensures Valid() && toParent == (|RunningChain(old(Now(trace)))| > 1)
      ensures trace == if toParent then old(trace) + [Finished(old(Now(trace)))] else old(trace)
    {
      CurrentNow(trace);
      toParent := parent[current] != None;
      if toParent {
        TraceExtend(trace, Finish);
        var oldStack := current;
        current := parent[oldStack].value;
        cache := Freed(cache, bucketOf[oldStack], oldStack);
        trace := trace + [Finished(Now(trace))];
      }
    }

    /** caml_alloc_stack, for a stack of `wosize` words when fibers have `fiberWsz`;
        `spare` is what the allocator offers, if anything. */
    method AllocStack(wosize: nat, fiberWsz: nat, h: Handler, spare: Option<Fiber>) returns (stack: Option<Fiber>)
      requires Valid() && (spare.Some? ==> Fresh(Now(trace), spare.value))
      modifies this`cache, this`bucketOf, this`parent, this`handler, this`trace
      ensures Valid() && (stack == None <==> spare == None && !Cached(old(cache), Bucket(wosize, fiberWsz, 0)))
      ensures stack == None ==> trace == old(trace) && handler == old(handler)
      ensures stack.Some? ==> TailOf(None, TakenChain(Now(trace), stack.value))
      ensures stack.Some? ==> handler == old(handler)[stack.value := h]
      ensures stack.Some? ==>
        && stack.value == Chosen(old(cache), Bucket(wosize, fiberWsz, 0), stack.value)
        && trace == old(trace) + [Allocated(old(Now(trace)), Bucket(wosize, fiberWsz, 0), stack.value)]
    {
      CurrentNow(trace);
      var b := StackCacheBucket(wosize, fiberWsz);
      ghost var op;
      if b != -1 && cache[b] != [] {
        ghost var f := SomeFresh(Now(trace).place);
        op := Alloc(b, f);
        stack := Some(cache[b][0]);
        cache := cache[b := cache[b][1..]];
      } else if spare == None {
        return None;
      } else {
        op := Alloc(b, spare.value);
        stack := spare;
      }
      TraceExtend(trace, op);
      bucketOf := bucketOf[stack.value := b];
      parent := parent[stack.value := None];
      handler := handler[stack.value := h];
      trace := trace + [Apply(Now(trace), op)];
    }

    /** caml_continuation_use_and_update_handler_noexc: takes the chain and gives its
        last fiber, the one farthest from the effect, a new handler. */
    method UseAndUpdateHandler(k: Cont, h: Handler) returns (stack: Option<Fiber>)
      requires Valid() && k in head
      modifies this`head, this`handler, this`trace
      ensures Valid() && stack == old(head[k]) && trace == old(trace) + [Used(old(Now(trace)), k)]
      ensures stack == None ==> handler == old(handler)
      ensures stack.Some? ==> HeldChain(old(Now(trace)), k) != []
      ensures stack.Some? ==> handler == old(handler)[Last(HeldChain(old(Now(trace)), k)) := h]
    {
      stack := UseNoexc(k);
      if stack.Some? {
        TakenNow(trace, stack.value);
        var stk := FollowParents(parent, stack.value, TakenChain(Now(trace), stack.value));
        handler := handler[stk := h];
      }
    }

    /** caml_drop_continuation: frees the first stack of the chain only. */
    method DropContinuation(k: Cont) returns (dropped: bool)
      requires Valid() && k in head
      modifies this`head, this`cache, this`trace
      ensures Valid() && dropped == (HeldChain(old(Now(trace)), k) != [])
      ensures trace == if dropped then old(trace) + [Dropped(old(Now(trace)), k)] else old(trace)
    {
      ContNow(trace, k);
      dropped := head[k].Some?;
      if dropped {
        TraceExtend(trace, Drop(k));
        var stk := head[k].value;
        head := head[k := None];
        cache := Freed(cache, bucketOf[stk], stk);
        trace := trace + [Dropped(Now(trace), k)];
      }
    }
  }

  /** What holds of a taken chain in every state of a run. */
  lemma TakenNow(trace: seq<World>, f: Fiber)
    requires Trace(trace) && TakenChain(Now(trace), f) != []
    ensures Linked(Now(trace).parent, TakenChain(Now(trace), f)) && TakenChain(Now(trace), f)[0] == f
  {
    TraceGood(trace, |trace| - 1);
    ChainFacts(Now(trace), Taken(f));
  }

  lemma SomeFresh(place: Places) returns (f: Fiber)
    ensures f !in place
  {
    f := Above(place.Keys);
  }

  ghost function Above(s: set<nat>): (n: nat)
    ensures forall x :: x in s ==> x < n
    decreases |s|
  {
    if s == {} then 0
    else
      var x :| x in s;
      var n := Above(s - {x});
      assert forall y :: y in s && y != x ==> y in s - {x};
      if x < n then n else x + 1
  }
}
