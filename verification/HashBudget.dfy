/**
  How much of a value the hash function sees (`runtime/hash.c`): no more meaningful values than
  `count`, no more values than `limit`, and the whole value when it has fewer.
 */
module HashBudget {

  import opened Compare
  import opened Hash
  import opened MarshalFormat
  import opened MarshalGraph
  import opened MarshalTree

  /** How many meaningful values a value counts for when `num` may still be seen: blocks for
      none, integers, strings and doubles for one, float arrays for their elements. */
  function Counts(t: Tree, num: int): nat {
    match t
    case IntTree(_) => 1
    case AtomTree(_) => 0
    case NodeTree(_, _) => 0
    case LeafTree(Str(_)) => 1
    case LeafTree(Dbl(_)) => 1
    case LeafTree(DblArr(ds)) => if |ds| <= num then |ds| else if num < 0 then 0 else num
    case LeafTree(Block(_, _)) => 0
  }

  lemma {:induction false} ArrayCounts(ds: seq<Double>, num: int)
    requires num > 0
    ensures var n := if |ds| <= num then |ds| else num;
      ArraySteps(ds, num).1 == num - n && |ArraySteps(ds, num).0| == 2 * n
    decreases |ds|
  {
    if ds != [] && num > 1 {
      ArrayCounts(ds[1..], num - 1);
    }
  }

  lemma HeadCounts(t: Tree, num: int)
    requires num > 0
    ensures HashHead(t, num).1 == num - Counts(t, num) >= 0
  {
    if t.LeafTree? && t.o.DblArr? {
      ArrayCounts(t.o.ds, num);
    }
  }

  /** The values that leave the queue. */
  ghost function Seen(queue: seq<Tree>, wr: nat, sz: nat, num: int): seq<Tree>
    decreases 2 * Left(wr, sz) + |queue|
  {
    if queue == [] || num <= 0 then []
    else
      var k := Admitted(|Kids(queue[0])|, wr, sz);
      [queue[0]] + Seen(Next(queue, wr, sz), wr + k, sz, num - Counts(queue[0], num))
  }

  /** What values contribute one after the other, and what they count for together. */
  ghost function Contributions(ts: seq<Tree>, num: int): seq<Step> {
    if ts == [] then [] else HashHead(ts[0], num).0 + Contributions(ts[1..], num - Counts(ts[0], num))
  }

  ghost function Spent(ts: seq<Tree>, num: int): nat {
    if ts == [] then 0 else Counts(ts[0], num) + Spent(ts[1..], num - Counts(ts[0], num))
  }

  /** The hash is made of what the values seen contribute; they count for `num` at most, and
      there are no more of them than the queue holds and lets in. */
  lemma {:induction false} SeenWithin(queue: seq<Tree>, wr: nat, sz: nat, num: int)
    ensures var ts := Seen(queue, wr, sz, num);
      && Hash.Walk(queue, wr, sz, num) == Contributions(ts, num)
      && Spent(ts, num) <= (if num > 0 then num else 0) && |ts| <= |queue| + Left(wr, sz)
    decreases 2 * Left(wr, sz) + |queue|
  {
    if queue != [] && num > 0 {
      var t := queue[0];
      var k := Admitted(|Kids(t)|, wr, sz);
      HeadCounts(t, num);
      SeenWithin(Next(queue, wr, sz), wr + k, sz, num - Counts(t, num));
      var ts := Seen(queue, wr, sz, num);
      assert ts[1..] == Seen(Next(queue, wr, sz), wr + k, sz, num - Counts(t, num));
    }
  }

  // ----------------------------------------------------------------- whole values

  /** The meaningful values in a tree. */
  ghost function Meaning(t: Tree): nat
    decreases t, 0
  {
    match t
    case IntTree(_) => 1
    case AtomTree(_) => 0
    case NodeTree(_, kids) => Meanings(kids)
    case LeafTree(Str(_)) => 1
    case LeafTree(Dbl(_)) => 1
    case LeafTree(DblArr(ds)) => |ds|
    case LeafTree(Block(_, _)) => 0
  }

  ghost function Meanings(ts: seq<Tree>): nat
    decreases ts, 1
  {
    if ts == [] then 0 else Meaning(ts[0]) + Meanings(ts[1..])
  }

  lemma {:induction false} MeaningsAppend(ts: seq<Tree>, us: seq<Tree>)
    ensures Meanings(ts + us) == Meanings(ts) + Meanings(us)
    decreases |ts|
  {
    if ts == [] {
      assert ts + us == us;
    } else {
      assert (ts + us)[0] == ts[0] && (ts + us)[1..] == ts[1..] + us;
      MeaningsAppend(ts[1..], us);
    }
  }

  /** A value counts for what is in it, its fields apart. */
  lemma HeadMeaning(t: Tree, num: int)
    requires Meaning(t) < num
    ensures Meaning(t) == Counts(t, num) + Meanings(Kids(t)) && Weight(t) == 1 + ForestWeight(Kids(t))
  {
  }

  /** All fields of the next value get in. */
  lemma AllIn(queue: seq<Tree>, wr: nat, sz: nat)
    requires queue != [] && wr + ForestWeight(queue) - |queue| <= sz
    ensures var kids := Kids(queue[0]);
      && Admitted(|kids|, wr, sz) == |kids| && Next(queue, wr, sz) == queue[1..] + kids
      && ForestWeight(queue[1..] + kids) == ForestWeight(queue) - 1
  {
    var rest, kids := queue[1..], Kids(queue[0]);
    ForestAppend(rest, kids);
    ForestSize(rest);
    ForestSize(kids);
    assert kids[..|kids|] == kids;
  }

  /** When all values there are fit the limit, and fewer than `num` are meaningful, all are seen. */
  lemma {:induction false} AllSeen(queue: seq<Tree>, wr: nat, sz: nat, num: int)
    requires Meanings(queue) < num && wr + ForestWeight(queue) - |queue| <= sz
    ensures |Seen(queue, wr, sz, num)| == ForestWeight(queue)
    decreases 2 * Left(wr, sz) + |queue|
  {
    if queue != [] {
      var t, rest := queue[0], queue[1..];
      var kids := Kids(t);
      HeadMeaning(t, num);
      AllIn(queue, wr, sz);
      MeaningsAppend(rest, kids);
      AllSeen(rest + kids, wr + |kids|, sz, num - Counts(t, num));
    }
  }

  /** The limits of Hashtbl.hash_param: no more than `count` meaningful values and no more than
      `limit` values in all (one at least) go into the hash, and a value with fewer meaningful
      ones than `count` and no more than `limit` in all goes into it whole. */
  lemma Budget(t: Tree, count: int, limit: int, seed: int)
    ensures var sz := QueueLimit(limit);
      var ts := Seen([t], 1, sz, count);
      && HashTree(count, limit, seed, t) == Finish(Run(seed % WORD32, Contributions(ts, count)))
      && (count >= 0 ==> Spent(ts, count) <= count) && (sz > 0 ==> |ts| <= sz)
      && (Meaning(t) < count && Weight(t) <= sz ==> |ts| == Weight(t))
  {
    var sz := QueueLimit(limit);
    SeenWithin([t], 1, sz, count);
    assert [t][1..] == [];
    if Meaning(t) < count && Weight(t) <= sz {
      AllSeen([t], 1, sz, count);
    }
  }
}
