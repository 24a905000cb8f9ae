/**
  Finalisers (`runtime/finalise.c`, and the orphaning in `runtime/major_gc.c`): tables of
  registered values, lists of functions to call, and their hand-over when a domain ends.
  Whatever happens, a registered function is in exactly one place, or has been called.
 */
module Finalise {

  import opened Common

  type Domain = nat

  /** A registered function; `id` tells registrations apart. */
  datatype Entry = Entry(id: nat, fn: nat, val: nat, offset: nat)

  /** The entries in use; those from `aged` on may be in the minor heap. */
  datatype Finalisable = Finalisable(entries: seq<Entry>, aged: nat)

  predicate TableOk(t: Finalisable) {
    t.aged <= |t.entries|
  }

  const UNIT: nat := 1

  // ------------------------------------------------------------- stable partition

  /** The entries whose value is, or is not, in `white`, in order. */
  function Pick(es: seq<Entry>, white: set<nat>, inside: bool): seq<Entry> {
    if es == [] then []
    else
      var n := |es| - 1;
      Pick(es[..n], white, inside) + if (es[n].val in white) == inside then [es[n]] else []
  }

  /** The entry as it is called: without the value when that is not kept alive. */
  function Erase(e: Entry, keep: bool): Entry {
    if keep then e else e.(val := UNIT, offset := 0)
  }

  function EraseAll(es: seq<Entry>, keep: bool): seq<Entry> {
    seq(|es|, i requires 0 <= i < |es| => Erase(es[i], keep))
  }

  lemma PickStep(es: seq<Entry>, i: nat, white: set<nat>, inside: bool)
    requires i < |es|
    ensures Pick(es[..i + 1], white, inside) ==
            Pick(es[..i], white, inside) + if (es[i].val in white) == inside then [es[i]] else []
  {
    assert es[..i + 1][..i] == es[..i];
  }

  lemma {:induction false} PickLength(es: seq<Entry>, white: set<nat>)
    ensures |Pick(es, white, true)| + |Pick(es, white, false)| == |es|
    decreases |es|
  {
    if es != [] {
      PickLength(es[..|es| - 1], white);
    }
  }

  /** How often a registration occurs. */
  ghost function Count(es: seq<Entry>, id: nat): nat {
    if es == [] then 0 else Count(es[..|es| - 1], id) + if es[|es| - 1].id == id then 1 else 0
  }

  lemma {:induction false} CountAppend(es: seq<Entry>, fs: seq<Entry>, id: nat)
    ensures Count(es + fs, id) == Count(es, id) + Count(fs, id)
    decreases |fs|
  {
    if fs == [] {
      assert es + fs == es;
    } else {
      var n := |fs| - 1;
      assert (es + fs)[..|es| + n] == es + fs[..n];
      CountAppend(es, fs[..n], id);
    }
  }

  /** Nothing is lost and nothing is doubled. */
  lemma {:induction false} PickConserves(es: seq<Entry>, white: set<nat>, id: nat)
    ensures Count(Pick(es, white, true), id) + Count(Pick(es, white, false), id) == Count(es, id)
    decreases |es|
  {
    if es != [] {
      var n := |es| - 1;
      PickConserves(es[..n], white, id);
      CountAppend(Pick(es[..n], white, true), if es[n].val in white then [es[n]] else [], id);
      CountAppend(Pick(es[..n], white, false), if es[n].val in white then [] else [es[n]], id);
      CountOne(es[n], id);
    }
  }

  lemma CountOne(e: Entry, id: nat)
    ensures Count([e], id) == (if e.id == id then 1 else 0) && Count([], id) == 0
  {
    assert [e][..0] == [] && Count([], id) == 0;
  }

  // ------------------------------------------------------- generic_final_update

  /** What generic_final_update makes of a table, and of the values in `white`. */
  function Updated(t: Finalisable, white: set<nat>): (r: Finalisable)
    requires TableOk(t)
    ensures TableOk(r)
  {
    var alive := Pick(t.entries[..t.aged], white, false);
    Finalisable(alive + t.entries[t.aged..], |alive|)
  }

  function NewTodo(t: Finalisable, white: set<nat>, keep: bool): seq<Entry>
    requires TableOk(t)
  {
    EraseAll(Pick(t.entries[..t.aged], white, true), keep)
  }

  /** The counting loop. */
  method CountWhite(t: Finalisable, white: set<nat>) returns (n: nat)
    requires TableOk(t)
    ensures n == |Pick(t.entries[..t.aged], white, true)|
  {
    n := 0;
    var i := 0;
    while i < t.aged
      invariant i <= t.aged && n == |Pick(t.entries[..i], white, true)|
    {
      PickStep(t.entries, i, white, true);
      if t.entries[i].val in white {
        n := n + 1;
      }
      i := i + 1;
    }
  }

  /** generic_final_update, in place: a stable partition of the old part of the table; the
      young part moves down. None when there was nothing to do. */
  method GenericFinalUpdate(t: Finalisable, white: set<nat>, keep: bool)
    returns (r: Finalisable, todo: Option<seq<Entry>>)
    requires TableOk(t)
    ensures r == Updated(t, white)
    ensures todo == None <==> NewTodo(t, white, keep) == []
    ensures todo.Some? ==> todo.value == NewTodo(t, white, keep)
  {
    var count := CountWhite(t, white);
    ghost var front := t.entries[..t.aged];
    PickLength(front, white);
    if count == 0 {
      NothingWhite(front, white);
      assert front + t.entries[t.aged..] == t.entries;
      return t, None;
    }
    var table, items, aged := Partition(t, white, keep);
    var j;
    table, j := MoveYoung(t, table, aged);
    r, todo := Finalisable(table[..j], aged), Some(items);
  }

  /** The partition loop: entries kept move to the front, the others to the new list. */
  method Partition(t: Finalisable, white: set<nat>, keep: bool) returns (table: seq<Entry>, items: seq<Entry>, j: nat)
    requires TableOk(t)
    ensures j <= t.aged <= |table| == |t.entries| && table[t.aged..] == t.entries[t.aged..]
    ensures table[..j] == Pick(t.entries[..t.aged], white, false) && items == NewTodo(t, white, keep)
  {
    table, items, j := t.entries, [], 0;
    var i := 0;
    ghost var kept, gone: seq<Entry> := [], [];
    while i < t.aged
      invariant j <= i <= t.aged <= |table| == |t.entries| && table[..j] == kept && items == EraseAll(gone, keep)
      invariant table[i..] == t.entries[i..]
      invariant kept == Pick(t.entries[..i], white, false) && gone == Pick(t.entries[..i], white, true)
    {
      var e := table[i];
      assert e == table[i..][0] == t.entries[i];
      PickStep(t.entries, i, white, false);
      PickStep(t.entries, i, white, true);
      assert table[i + 1..] == table[i..][1..] && t.entries[i + 1..] == t.entries[i..][1..];
      if e.val in white {
        EraseAppend(gone, e, keep);
        items, gone := items + [Erase(e, keep)], gone + [e];
      } else {
        Overwrite(table, i, j, kept);
        table, kept := table[j := e], kept + [e];
        j := j + 1;
      }
      i := i + 1;
    }
  }

  lemma EraseAppend(es: seq<Entry>, e: Entry, keep: bool)
    ensures EraseAll(es + [e], keep) == EraseAll(es, keep) + [Erase(e, keep)]
  {
  }

  /** Writing at the next free slot extends what is kept, and spares what comes later. */
  lemma Overwrite(table: seq<Entry>, i: nat, j: nat, kept: seq<Entry>)
    requires j <= i < |table| && table[..j] == kept
    ensures table[j := table[i]][..j + 1] == kept + [table[i]]
    ensures table[j := table[i]][i + 1..] == table[i + 1..]
  {
  }

  /** The last loop: what was registered since moves down behind the entries kept. */
  method MoveYoung(t: Finalisable, table: seq<Entry>, kept: nat) returns (table': seq<Entry>, j: nat)
    requires TableOk(t) && kept <= t.aged <= |table| == |t.entries| && table[t.aged..] == t.entries[t.aged..]
    ensures j <= |table'| && table'[..j] == table[..kept] + t.entries[t.aged..]
  {
    table', j := table, kept;
    var i := t.aged;
    assert forall x :: i <= x < |table| ==> table[x] == table[i..][x - i] == t.entries[i..][x - i];
    while i < |t.entries|
      invariant t.aged <= i <= |t.entries| == |table'| && j == kept + (i - t.aged)
      invariant forall x :: i <= x < |table'| ==> table'[x] == t.entries[x]
      invariant table'[..j] == table[..kept] + t.entries[t.aged..i]
    {
      assert table'[i] == t.entries[i];
      table' := table'[j := table'[i]];
      assert table'[..j + 1] == table[..kept] + t.entries[t.aged..i] + [t.entries[i]];
      assert t.entries[t.aged..i + 1] == t.entries[t.aged..i] + [t.entries[i]];
      i, j := i + 1, j + 1;
    }
  }

  lemma {:induction false} NothingWhite(es: seq<Entry>, white: set<nat>)
    requires |Pick(es, white, true)| == 0
    ensures Pick(es, white, false) == es
    decreases |es|
  {
    if es != [] {
      NothingWhite(es[..|es| - 1], white);
      assert es == es[..|es| - 1] + [es[|es| - 1]];
    }
  }

  // ---------------------------------------------------- generic_final_minor_update

  /** Of the entries registered since the last minor collection: those dead are in the
      minor heap and were not copied out of it. */
  predicate Dead(e: Entry, young: set<nat>, copied: set<nat>) {
    e.val in young && e.val !in copied
  }

  /** What is meant: an entry is called exactly when it is dead. */
  function MeantFlags(es: seq<Entry>, young: set<nat>, copied: set<nat>): (r: seq<bool>)
    ensures |r| == |es|
  {
    seq(|es|, i requires 0 <= i < |es| => Dead(es[i], young, copied))
  }

  /** How many entries are kept. */
  function Kept(flags: seq<bool>): (n: nat)
    ensures n <= |flags|
  {
    if flags == [] then 0 else Kept(flags[..|flags| - 1]) + if flags[|flags| - 1] then 0 else 1
  }

  /** What the loop does: its test for the minor heap looks at the next free slot of the
      table and not at the entry at hand. */
  function DoneFlags(es: seq<Entry>, young: set<nat>, copied: set<nat>): (r: seq<bool>)
    ensures |r| == |es|
  {
    if es == [] then []
    else
      var n := |es| - 1;
      var flags := DoneFlags(es[..n], young, copied);
      flags + [es[Kept(flags)].val in young && es[n].val !in copied]
  }

  /** No entry of the major heap comes after a dead one. */
  ghost predicate YoungAfterDead(es: seq<Entry>, young: set<nat>, copied: set<nat>) {
    forall i, j :: 0 <= i < j < |es| && Dead(es[i], young, copied) ==> es[j].val in young
  }

  lemma MeantStep(es: seq<Entry>, young: set<nat>, copied: set<nat>)
    requires es != []
    ensures var n := |es| - 1;
      MeantFlags(es, young, copied) == MeantFlags(es[..n], young, copied) + [Dead(es[n], young, copied)]
  {
  }

  /** As long as nothing is dead all entries are kept; after the first dead one the free
      slot stays behind, but not before it. */
  lemma {:induction false} KeptBounds(es: seq<Entry>, young: set<nat>, copied: set<nat>, p: nat)
    requires p <= |es| && forall i :: 0 <= i < p ==> !Dead(es[i], young, copied)
    ensures p <= Kept(MeantFlags(es, young, copied))
    ensures p < |es| && Dead(es[p], young, copied) ==> Kept(MeantFlags(es, young, copied)) < |es|
    decreases |es|
  {
    if es != [] {
      var n := |es| - 1;
      MeantStep(es, young, copied);
      var flags := MeantFlags(es[..n], young, copied);
      assert (flags + [Dead(es[n], young, copied)])[..n] == flags;
      KeptBounds(es[..n], young, copied, if p <= n then p else n);
    }
  }

  /** The slot that the loop tests, on entries on which it has been right so far. */
  lemma SlotTested(es: seq<Entry>, n: nat, young: set<nat>, copied: set<nat>)
    requires n < |es| && YoungAfterDead(es[..n], young, copied)
    ensures var k := Kept(MeantFlags(es[..n], young, copied));
      k == n || (es[k].val in young && exists p :: 0 <= p < n && Dead(es[p], young, copied))
  {
    var p := FirstDead(es[..n], young, copied);
    KeptBounds(es[..n], young, copied, p);
    if p < n {
      assert Dead(es[p], young, copied) && Dead(es[..n][p], young, copied);
      var k := Kept(MeantFlags(es[..n], young, copied));
      assert es[..n][k] == es[k];
    }
  }

  lemma {:induction false} FirstDead(es: seq<Entry>, young: set<nat>, copied: set<nat>) returns (p: nat)
    ensures p <= |es| && forall i :: 0 <= i < p ==> !Dead(es[i], young, copied)
    ensures p < |es| ==> Dead(es[p], young, copied)
  {
    p := 0;
    while p < |es| && !Dead(es[p], young, copied)
      invariant p <= |es| && forall i :: 0 <= i < p ==> !Dead(es[i], young, copied)
    {
      p := p + 1;
    }
  }

  /** The update of the entries in the minor heap takes out what is meant exactly when no
      entry of the major heap comes after a dead one. */
  lemma {:induction false} MinorUpdateExact(es: seq<Entry>, young: set<nat>, copied: set<nat>)
    requires copied <= young
    ensures DoneFlags(es, young, copied) == MeantFlags(es, young, copied) <==> YoungAfterDead(es, young, copied)
    decreases |es|
  {
    if es != [] {
      var n := |es| - 1;
      MinorUpdateExact(es[..n], young, copied);
      FlagsStep(es, young, copied);
      if YoungAfterDead(es[..n], young, copied) {
        LastFlag(es, young, copied);
      } else {
        YoungPrefix(es, n, young, copied);
      }
    }
  }

  /** The flag of the last entry, after flags for the others. */
  function LastDone(es: seq<Entry>, young: set<nat>, copied: set<nat>, flags: seq<bool>): bool
    requires es != [] && |flags| == |es| - 1
  {
    es[Kept(flags)].val in young && es[|es| - 1].val !in copied
  }

  lemma FlagsStep(es: seq<Entry>, young: set<nat>, copied: set<nat>)
    requires es != []
    ensures var n := |es| - 1;
      var done, meant := DoneFlags(es[..n], young, copied), MeantFlags(es[..n], young, copied);
      DoneFlags(es, young, copied) == MeantFlags(es, young, copied) <==>
        done == meant && LastDone(es, young, copied, done) == Dead(es[n], young, copied)
  {
    var n := |es| - 1;
    MeantStep(es, young, copied);
    var done, meant := DoneFlags(es[..n], young, copied), MeantFlags(es[..n], young, copied);
    assert DoneFlags(es, young, copied) == done + [LastDone(es, young, copied, done)];
    SnocEqual(done, LastDone(es, young, copied, done), meant, Dead(es[n], young, copied));
  }

  lemma SnocEqual(s: seq<bool>, x: bool, t: seq<bool>, y: bool)
    requires |s| == |t|
    ensures s + [x] == t + [y] <==> s == t && x == y
  {
    if s + [x] == t + [y] {
      assert (s + [x])[..|s|] == s && (t + [y])[..|t|] == t && (s + [x])[|s|] == x && (t + [y])[|t|] == y;
    }
  }

  lemma LastFlag(es: seq<Entry>, young: set<nat>, copied: set<nat>)
    requires es != [] && copied <= young && YoungAfterDead(es[..|es| - 1], young, copied)
    ensures var n := |es| - 1;
      LastDone(es, young, copied, MeantFlags(es[..n], young, copied)) == Dead(es[n], young, copied) <==>
        YoungAfterDead(es, young, copied)
  {
    SlotTested(es, |es| - 1, young, copied);
    LastEntry(es, young, copied);
    KeptAll(es[..|es| - 1], young, copied);
  }

  /** All kept means none dead. */
  lemma {:induction false} KeptAll(es: seq<Entry>, young: set<nat>, copied: set<nat>)
    ensures Kept(MeantFlags(es, young, copied)) == |es| ==> forall i :: 0 <= i < |es| ==> !Dead(es[i], young, copied)
    decreases |es|
  {
    if es != [] {
      var n := |es| - 1;
      MeantStep(es, young, copied);
      var flags := MeantFlags(es[..n], young, copied);
      assert (flags + [Dead(es[n], young, copied)])[..n] == flags;
      KeptAll(es[..n], young, copied);
      assert forall i :: 0 <= i < n ==> es[..n][i] == es[i];
    }
  }

  lemma YoungPrefix(es: seq<Entry>, n: nat, young: set<nat>, copied: set<nat>)
    requires n <= |es|
    ensures YoungAfterDead(es, young, copied) ==> YoungAfterDead(es[..n], young, copied)
  {
  }

  lemma LastEntry(es: seq<Entry>, young: set<nat>, copied: set<nat>)
    requires es != [] && YoungAfterDead(es[..|es| - 1], young, copied)
    ensures YoungAfterDead(es, young, copied) <==>
      (es[|es| - 1].val in young || forall p :: 0 <= p < |es| - 1 ==> !Dead(es[p], young, copied))
  {
    var n := |es| - 1;
    assert forall i, j :: 0 <= i < j < n ==> es[..n][i] == es[i] && es[..n][j] == es[j];
  }

  /** The entries with a given flag, in order. */
  function Select(es: seq<Entry>, flags: seq<bool>, flag: bool): seq<Entry>
    requires |flags| == |es|
  {
    if es == [] then []
    else
      var n := |es| - 1;
      Select(es[..n], flags[..n], flag) + if flags[n] == flag then [es[n]] else []
  }

  lemma {:induction false} SelectKept(es: seq<Entry>, flags: seq<bool>)
    requires |flags| == |es|
    ensures |Select(es, flags, false)| == Kept(flags)
    decreases |es|
  {
    if es != [] {
      SelectKept(es[..|es| - 1], flags[..|es| - 1]);
    }
  }

  /** The loop has come so far with these flags, and has taken out and left these. */
  ghost predicate Looked(es: seq<Entry>, young: set<nat>, copied: set<nat>, flags: seq<bool>,
                         taken: seq<Entry>, left: seq<Entry>) {
    && |flags| == |es| && flags == DoneFlags(es, young, copied)
    && taken == Select(es, flags, true) && left == Select(es, flags, false) && |left| == Kept(flags)
  }

  lemma {:induction false} SnocFlags(es: seq<Entry>, e: Entry, young: set<nat>, copied: set<nat>, flags: seq<bool>)
    requires flags == DoneFlags(es, young, copied)
    ensures DoneFlags(es + [e], young, copied) ==
            flags + [(es + [e])[Kept(flags)].val in young && e.val !in copied]
  {
    assert (es + [e])[..|es|] == es;
  }

  lemma {:induction false} SnocSelect(es: seq<Entry>, e: Entry, flags: seq<bool>, now: bool, flag: bool)
    requires |flags| == |es|
    ensures Select(es + [e], flags + [now], flag) == Select(es, flags, flag) + if now == flag then [e] else []
  {
    assert (es + [e])[..|es|] == es && (flags + [now])[..|es|] == flags;
  }

  lemma {:induction false} SnocPick(es: seq<Entry>, e: Entry, white: set<nat>)
    ensures Pick(es + [e], white, true) == Pick(es, white, true) + if e.val in white then [e] else []
  {
    assert (es + [e])[..|es|] == es;
  }

  /** One more entry is looked at. */
  lemma {:induction false} LookAt(es: seq<Entry>, e: Entry, young: set<nat>, copied: set<nat>, flags: seq<bool>,
                                  taken: seq<Entry>, left: seq<Entry>, now: bool)
    requires Looked(es, young, copied, flags, taken, left)
    requires now == ((es + [e])[Kept(flags)].val in young && e.val !in copied)
    ensures Looked(es + [e], young, copied, flags + [now], if now then taken + [e] else taken,
                   if now then left else left + [e])
  {
    SnocFlags(es, e, young, copied, flags);
    SnocSelect(es, e, flags, now, true);
    SnocSelect(es, e, flags, now, false);
    assert (flags + [now])[..|es|] == flags;
  }

  /** What the partition loop takes out of the table, and what it leaves. */
  function TakenOut(es: seq<Entry>, young: set<nat>, copied: set<nat>): seq<Entry> {
    Select(es, DoneFlags(es, young, copied), true)
  }

  function LeftIn(es: seq<Entry>, young: set<nat>, copied: set<nat>): seq<Entry> {
    Select(es, DoneFlags(es, young, copied), false)
  }

  /** What the counting loop counts: the size of the list that is allocated. */
  function DeadCount(es: seq<Entry>, young: set<nat>, copied: set<nat>): nat {
    |Pick(es, young - copied, true)|
  }

  /** The counting loop, which looks at the entry at hand. */
  method CountDead(es: seq<Entry>, young: set<nat>, copied: set<nat>) returns (n: nat)
    ensures n == DeadCount(es, young, copied)
  {
    n := 0;
    var i := 0;
    while i < |es|
      invariant i <= |es| && n == |Pick(es[..i], young - copied, true)|
    {
      PickStep(es, i, young - copied, true);
      if es[i].val in young && es[i].val !in copied {
        n := n + 1;
      }
      i := i + 1;
    }
    assert es[..i] == es;
  }

  /** The partition loop of generic_final_minor_update, in place, with a list of `count`
      items: what is written past its end is `spilled`. */
  method MinorPartition(es: seq<Entry>, young: set<nat>, copied: set<nat>, count: nat)
    returns (kept: seq<Entry>, items: seq<Entry>, spilled: seq<Entry>)
    ensures kept == LeftIn(es, young, copied)
    ensures items + spilled == EraseAll(TakenOut(es, young, copied), false)
    ensures |items| <= count && (spilled != [] ==> |items| == count)
  {
    var table, i, j := es, 0, 0;
    items, spilled := [], [];
    ghost var stay, gone: seq<Entry>, flags: seq<bool> := [], [], [];
    while i < |es|
      invariant j <= i <= |es| == |table| && forall x :: j <= x < |es| ==> table[x] == es[x]
      invariant table[..j] == stay && Looked(es[..i], young, copied, flags, gone, stay)
      invariant items + spilled == EraseAll(gone, false) && |items| <= count && (spilled != [] ==> |items| == count)
    {
      var e, dead := table[i], false;
      table, j, items, spilled, dead := PartitionEntry(table, i, j, young, copied, items, spilled, count);
      assert es[..i] + [es[i]] == es[..i + 1];
      LookAt(es[..i], e, young, copied, flags, gone, stay, dead);
      EraseAppend(gone, e, false);
      flags := flags + [dead];
      gone, stay := if dead then gone + [e] else gone, if dead then stay else stay + [e];
      i := i + 1;
    }
    assert es[..i] == es;
    kept := table[..j];
  }

  /** One turn of that loop: entry `i` goes to the list, or to slot `j` of the table. */
  method PartitionEntry(table: seq<Entry>, i: nat, j: nat, young: set<nat>, copied: set<nat>, items: seq<Entry>,
                        spilled: seq<Entry>, count: nat)
    returns (table': seq<Entry>, j': nat, items': seq<Entry>, spilled': seq<Entry>, dead: bool)
    requires j <= i < |table| && |items| <= count && (spilled != [] ==> |items| == count)
    ensures dead == (table[j].val in young && table[i].val !in copied)
    ensures |table'| == |table| && j' == (if dead then j else j + 1)
    ensures forall x :: j' <= x < |table| ==> table'[x] == table[x]
    ensures table'[..j'] == if dead then table[..j] else table[..j] + [table[i]]
    ensures items' + spilled' == if dead then items + spilled + [Erase(table[i], false)] else items + spilled
    ensures |items'| <= count && (spilled' != [] ==> |items'| == count)
  {
    table', j', items', spilled' := table, j, items, spilled;
    dead := table[j].val in young && table[i].val !in copied;
    if dead {
      items', spilled' := WriteItem(items, spilled, count, Erase(table[i], false));
    } else {
      Overwrite(table, i, j, table[..j]);
      table', j' := table[j := table[i]], j + 1;
    }
  }

  /** item[k] = e, with k the number of items written so far. */
  method WriteItem(items: seq<Entry>, spilled: seq<Entry>, count: nat, e: Entry)
    returns (items': seq<Entry>, spilled': seq<Entry>)
    requires |items| <= count && (spilled != [] ==> |items| == count)
    ensures items' + spilled' == items + spilled + [e]
    ensures |items'| <= count && (spilled' != [] ==> |items'| == count)
  {
    if |items| < count {
      items', spilled' := items + [e], spilled;
    } else {
      items', spilled' := items, spilled + [e];
    }
  }

  lemma {:induction false} PickPrefix(es: seq<Entry>, n: nat, white: set<nat>, inside: bool)
    requires n <= |es|
    ensures |Pick(es[..n], white, inside)| <= |Pick(es, white, inside)|
    decreases |es|
  {
    if n < |es| {
      assert es[..|es| - 1][..n] == es[..n];
      PickPrefix(es[..|es| - 1], n, white, inside);
    } else {
      assert es[..n] == es;
    }
  }

  /** Each entry is in the major heap, copied out of the minor heap, or dead. */
  lemma {:induction false} ThreeKinds(es: seq<Entry>, young: set<nat>, copied: set<nat>)
    requires copied <= young
    ensures |Pick(es, young, false)| + |Pick(es, copied, true)| + DeadCount(es, young, copied) == |es|
    decreases |es|
  {
    if es != [] {
      ThreeKinds(es[..|es| - 1], young, copied);
    }
  }

  /** The number of entries left in, with one more entry looked at. */
  lemma {:induction false} KeptStep(es: seq<Entry>, young: set<nat>, copied: set<nat>, k: nat)
    requires es != [] && k == Kept(DoneFlags(es[..|es| - 1], young, copied))
    ensures k < |es|
    ensures Kept(DoneFlags(es, young, copied)) ==
            if es[k].val in young && es[|es| - 1].val !in copied then k else k + 1
  {
    assert DoneFlags(es, young, copied)[..|es| - 1] == DoneFlags(es[..|es| - 1], young, copied);
  }

  /** Every entry left in the table has either used up a slot of the major heap or been
      copied itself. */
  lemma {:induction false} SlotsUsed(es: seq<Entry>, young: set<nat>, copied: set<nat>, k: nat)
    requires k == Kept(DoneFlags(es, young, copied))
    ensures k <= |es| && k <= |Pick(es[..k], young, false)| + |Pick(es, copied, true)|
    decreases |es|
  {
    if es != [] {
      var n := |es| - 1;
      var l := Kept(DoneFlags(es[..n], young, copied));
      SlotsUsed(es[..n], young, copied, l);
      KeptStep(es, young, copied, l);
      SlotUsed(es, young, copied, l);
    }
  }

  lemma {:induction false} SlotUsed(es: seq<Entry>, young: set<nat>, copied: set<nat>, k: nat)
    requires es != [] && k < |es|
    requires k <= |Pick(es[..|es| - 1][..k], young, false)| + |Pick(es[..|es| - 1], copied, true)|
    ensures if es[k].val in young && es[|es| - 1].val !in copied
            then k <= |Pick(es[..k], young, false)| + |Pick(es, copied, true)|
            else k + 1 <= |Pick(es[..k + 1], young, false)| + |Pick(es, copied, true)|
  {
    assert es[..|es| - 1][..k] == es[..k] && es[..|es| - 1 + 1] == es;
    PickStep(es, k, young, false);
    PickStep(es, |es| - 1, copied, true);
  }

  /** The loop takes out at least as many entries as were counted, so that the list is
      always filled. */
  lemma TakenAtLeast(es: seq<Entry>, young: set<nat>, copied: set<nat>)
    requires copied <= young
    ensures |TakenOut(es, young, copied)| >= DeadCount(es, young, copied)
    ensures |TakenOut(es, young, copied)| + |LeftIn(es, young, copied)| == |es|
  {
    var flags := DoneFlags(es, young, copied);
    SelectLength(es, flags);
    SelectKept(es, flags);
    SlotsUsed(es, young, copied, Kept(flags));
    PickPrefix(es, Kept(flags), young, false);
    ThreeKinds(es, young, copied);
  }

  lemma {:induction false} SelectLength(es: seq<Entry>, flags: seq<bool>)
    requires |flags| == |es|
    ensures |Select(es, flags, true)| + |Select(es, flags, false)| == |es|
    decreases |es|
  {
    if es != [] {
      SelectLength(es[..|es| - 1], flags[..|es| - 1]);
    }
  }

  /** The counted size is enough for what is taken out. */
  predicate Fits(es: seq<Entry>, young: set<nat>, copied: set<nat>) {
    |TakenOut(es, young, copied)| == DeadCount(es, young, copied)
  }

  /** What is published: the list has the counted size. */
  function Published(es: seq<Entry>, young: set<nat>, copied: set<nat>): seq<Entry>
    requires copied <= young
  {
    TakenAtLeast(es, young, copied);
    EraseAll(TakenOut(es, young, copied), false)[..DeadCount(es, young, copied)]
  }

  /** generic_final_minor_update on the entries since the last minor collection. When
      nothing is counted nothing is done; otherwise a full list is published, and nothing
      is written past its end exactly when the count fits. */
  method GenericFinalMinorUpdate(es: seq<Entry>, young: set<nat>, copied: set<nat>)
    returns (kept: seq<Entry>, todo: Option<seq<Entry>>, spilled: seq<Entry>)
    requires copied <= young
    ensures kept == LeftIn(es, young, copied)
    ensures todo == None <==> DeadCount(es, young, copied) == 0
    ensures todo.Some? ==> todo.value == Published(es, young, copied)
    ensures spilled == [] <==> Fits(es, young, copied)
    ensures Published(es, young, copied) + spilled == EraseAll(TakenOut(es, young, copied), false)
  {
    var count := CountDead(es, young, copied);
    TakenAtLeast(es, young, copied);
    if count == 0 {
      NothingDead(es, young, copied);
      return es, None, [];
    }
    var items;
    kept, items, spilled := MinorPartition(es, young, copied, count);
    assert items == (items + spilled)[..count];
    todo := Some(items);
  }

  lemma {:induction false} NothingDead(es: seq<Entry>, young: set<nat>, copied: set<nat>)
    requires copied <= young && DeadCount(es, young, copied) == 0
    ensures TakenOut(es, young, copied) == [] && LeftIn(es, young, copied) == es
  {
    NothingWhite(es, young - copied);
    NonePicked(es, young - copied);
    MinorPicks(es, young, copied, true);
    MinorPicks(es, young, copied, false);
  }

  lemma {:induction false} NonePicked(es: seq<Entry>, white: set<nat>)
    requires |Pick(es, white, true)| == 0
    ensures forall i :: 0 <= i < |es| ==> es[i].val !in white
    decreases |es|
  {
    if es != [] {
      NonePicked(es[..|es| - 1], white);
      assert forall i :: 0 <= i < |es| - 1 ==> es[..|es| - 1][i] == es[i];
    }
  }

  lemma {:induction false} TwoTaken(a: Entry, b: Entry, young: set<nat>, copied: set<nat>)
    requires Dead(a, young, copied) && b.val !in young && b.val !in copied
    ensures Looked([a, b], young, copied, [true, true], [a, b], [])
    ensures Pick([a, b], young - copied, true) == [a]
  {
    LookAt([], a, young, copied, [], [], [], true);
    assert [] + [a] == [a] && [] + [true] == [true];
    LookAt([a], b, young, copied, [true], [a], [], true);
    assert [a] + [b] == [a, b] && [true] + [true] == [true, true];
    SnocPick([], a, young - copied);
    SnocPick([a], b, young - copied);
  }

  /** A finaliser on a live value of the major heap, registered after one on a value of
      the minor heap that dies: one entry is counted and both are taken out. The live one
      is written past the end of the list, and is in no place any more. */
  lemma {:induction false} MinorUpdateCounterexample(a: Entry, b: Entry)
    requires a == Entry(0, 5, 100, 0) && b == Entry(1, 5, 200, 0)
    ensures DeadCount([a, b], {100}, {}) == 1 && TakenOut([a, b], {100}, {}) == [a, b]
    ensures LeftIn([a, b], {100}, {}) == [] && Published([a, b], {100}, {}) == [Entry(0, 5, UNIT, 0)]
  {
    TwoTaken(a, b, {100}, {});
    assert EraseAll([a, b], false)[..1] == [Erase(a, false)];
  }

  lemma {:induction false} TwoLeft(a: Entry, b: Entry, c: Entry, d: Entry, young: set<nat>, copied: set<nat>)
    requires Looked([a, b], young, copied, [true, true], [a, b], []) && b.val !in young && c.val in copied
    ensures Looked([a, b, c, d], young, copied, [true, true, false, false], [a, b], [c, d])
  {
    LookAt([a, b], c, young, copied, [true, true], [a, b], [], false);
    assert [a, b] + [c] == [a, b, c] && [] + [c] == [c] && [true, true] + [false] == [true, true, false];
    LookAt([a, b, c], d, young, copied, [true, true, false], [a, b], [c], false);
    assert [a, b, c] + [d] == [a, b, c, d] && [c] + [d] == [c, d];
    assert [true, true, false] + [false] == [true, true, false, false];
  }

  /** The numbers may agree and the wrong entries be taken out: after a dead one, an entry
      of the major heap is taken, and a second dead one is left. */
  lemma {:induction false} MinorUpdateWrongEntries(a: Entry, b: Entry, c: Entry, d: Entry, young: set<nat>)
    requires a == Entry(0, 5, 100, 0) && b == Entry(1, 5, 200, 0)
    requires c == Entry(2, 5, 101, 0) && d == Entry(3, 5, 102, 0) && young == {100, 101, 102}
    ensures TakenOut([a, b, c, d], young, {101}) == [a, b] && Pick([a, b, c, d], young - {101}, true) == [a, d]
    ensures Fits([a, b, c, d], young, {101})
  {
    TwoTaken(a, b, young, {101});
    TwoLeft(a, b, c, d, young, {101});
    SnocPick([a, b], c, young - {101});
    assert [a, b] + [c] == [a, b, c] && [a, b, c] + [d] == [a, b, c, d];
    SnocPick([a, b, c], d, young - {101});
  }

  /** When no entry of the major heap comes after a dead one, the loop takes out exactly
      the dead entries. */
  lemma MinorPicks(es: seq<Entry>, young: set<nat>, copied: set<nat>, flag: bool)
    requires copied <= young && YoungAfterDead(es, young, copied)
    ensures Select(es, DoneFlags(es, young, copied), flag) == Pick(es, young - copied, flag)
    ensures flag ==> Fits(es, young, copied)
  {
    MinorUpdateExact(es, young, copied);
    SelectPick(es, young, copied, flag);
  }

  lemma {:induction false} SelectPick(es: seq<Entry>, young: set<nat>, copied: set<nat>, flag: bool)
    ensures Select(es, MeantFlags(es, young, copied), flag) == Pick(es, young - copied, flag)
    decreases |es|
  {
    if es != [] {
      var n := |es| - 1;
      MeantStep(es, young, copied);
      assert MeantFlags(es, young, copied)[..n] == MeantFlags(es[..n], young, copied);
      SelectPick(es[..n], young, copied, flag);
    }
  }

  lemma {:induction false} SelectConserves(es: seq<Entry>, flags: seq<bool>, id: nat)
    requires |flags| == |es|
    ensures Count(Select(es, flags, true), id) + Count(Select(es, flags, false), id) == Count(es, id)
    decreases |es|
  {
    if es != [] {
      var n := |es| - 1;
      SelectConserves(es[..n], flags[..n], id);
      CountAppend(Select(es[..n], flags[..n], true), if flags[n] then [es[n]] else [], id);
      CountAppend(Select(es[..n], flags[..n], false), if flags[n] then [] else [es[n]], id);
      CountOne(es[n], id);
    }
  }

  // ------------------------------------------------------------- whole runs

  /** The finalisers of a domain: called with the value, called without it, and the lists
      of those to call, oldest first. */
  datatype Info = Info(first: Finalisable, last: Finalisable, todo: seq<seq<Entry>>)

  const NO_INFO := Info(Finalisable([], 0), Finalisable([], 0), [])

  /** The domains' finalisers, those of ended domains, and the functions called. */
  datatype World = World(infos: seq<Info>, orphans: seq<Info>, called: seq<Entry>, next: nat)

  ghost predicate InfoOk(f: Info) {
    TableOk(f.first) && TableOk(f.last)
  }

  ghost predicate WorldOk(w: World) {
    && (forall d :: 0 <= d < |w.infos| ==> InfoOk(w.infos[d]))
    && (forall k :: 0 <= k < |w.orphans| ==> InfoOk(w.orphans[k]))
  }

  ghost function TodoCount(todo: seq<seq<Entry>>, id: nat): nat {
    if todo == [] then 0 else Count(todo[0], id) + TodoCount(todo[1..], id)
  }

  ghost function InfoCount(f: Info, id: nat): nat {
    Count(f.first.entries, id) + Count(f.last.entries, id) + TodoCount(f.todo, id)
  }

  ghost function AllCount(infos: seq<Info>, id: nat): nat {
    if infos == [] then 0 else InfoCount(infos[0], id) + AllCount(infos[1..], id)
  }

  /** How often a registration is anywhere. */
  ghost function Census(w: World, id: nat): nat {
    AllCount(w.infos, id) + AllCount(w.orphans, id) + Count(w.called, id)
  }

  /** Every registration is in exactly one place. */
  ghost predicate Conserved(w: World) {
    WorldOk(w) && forall id: nat :: Census(w, id) == if id < w.next then 1 else 0
  }

  datatype Which = First | Last

  datatype Step =
    | Register(d: Domain, which: Which, fn: nat, val: nat, offset: nat)
    | Update(d: Domain, which: Which, white: set<nat>)     // caml_final_update_first, _last
    | MinorUpdate(d: Domain, young: set<nat>, copied: set<nat>)
    | EmptyYoung(d: Domain)
    | Call(d: Domain)                                      // one turn of caml_final_do_calls_exn
    | Orphan(d: Domain)
    | Adopt(d: Domain)                                     // one structure of adopt_orphaned_work

  function TableOf(f: Info, which: Which): Finalisable {
    if which == First then f.first else f.last
  }

  function WithTable(f: Info, which: Which, t: Finalisable): Info {
    if which == First then f.(first := t) else f.(last := t)
  }

  /** The entries registered since the last minor collection. */
  function Window(f: Info): seq<Entry>
    requires TableOk(f.last)
  {
    f.last.entries[f.last.aged..]
  }

  ghost predicate Enabled(w: World, s: Step) {
    && s.d < |w.infos|
    && (s.MinorUpdate? ==>
          s.copied <= s.young && TableOk(w.infos[s.d].last) && Fits(Window(w.infos[s.d]), s.young, s.copied))
    && (s.Call? ==> w.infos[s.d].todo != [])
    && (s.Adopt? ==> w.orphans != [])
  }

  /** generic_final_register */
  function AddEntry(t: Finalisable, e: Entry): Finalisable {
    t.(entries := t.entries + [e])
  }

  /** alloc_todo and what fills it: a new list at the end, if it holds anything. */
  function WithTodo(f: Info, items: seq<Entry>): Info {
    if items == [] then f else f.(todo := f.todo + [items])
  }

  /** The next function to call is the last of the first list; empty lists go away. */
  function AfterCall(todo: seq<seq<Entry>>): seq<seq<Entry>>
    requires todo != []
  {
    if |todo[0]| <= 1 then todo[1..] else [todo[0][..|todo[0]| - 1]] + todo[1..]
  }

  function CallNext(todo: seq<seq<Entry>>): seq<Entry>
    requires todo != []
  {
    if todo[0] == [] then [] else [todo[0][|todo[0]| - 1]]
  }

  /** caml_final_merge_finalisable: the entries of the source go first, all of them old. */
  function Merge(source: Finalisable, target: Finalisable): Finalisable {
    Finalisable(source.entries + target.entries, |source.entries| + target.aged)
  }

  /** What generic_final_minor_update makes of the finalisers called without the value. */
  function MinorUpdated(f: Info, young: set<nat>, copied: set<nat>): Info
    requires TableOk(f.last) && copied <= young
  {
    var t := f.last;
    var kept := LeftIn(Window(f), young, copied);
    WithTodo(f.(last := Finalisable(t.entries[..t.aged] + kept, t.aged)), Published(Window(f), young, copied))
  }

  ghost function Apply(w: World, s: Step): World
    requires WorldOk(w) && Enabled(w, s)
  {
    var f := w.infos[s.d];
    assert InfoOk(f);
    match s
    case Register(d, which, fn, val, offset) =>
      w.(infos := w.infos[d := WithTable(f, which, AddEntry(TableOf(f, which), Entry(w.next, fn, val, offset)))],
         next := w.next + 1)
    case Update(d, which, white) =>
      var t := TableOf(f, which);
      w.(infos := w.infos[d := WithTodo(WithTable(f, which, Updated(t, white)), NewTodo(t, white, which == First))])
    case MinorUpdate(d, young, copied) => w.(infos := w.infos[d := MinorUpdated(f, young, copied)])
    case EmptyYoung(d) =>
      w.(infos := w.infos[d := f.(first := f.first.(aged := |f.first.entries|),
                                  last := f.last.(aged := |f.last.entries|))])
    case Call(d) =>
      w.(infos := w.infos[d := f.(todo := AfterCall(f.todo))], called := w.called + CallNext(f.todo))
    case Orphan(d) => w.(infos := w.infos[d := NO_INFO], orphans := [f] + w.orphans)
    case Adopt(d) =>
      var g := w.orphans[0];
      w.(infos := w.infos[d := Info(Merge(g.first, f.first), Merge(g.last, f.last), f.todo + g.todo)],
         orphans := w.orphans[1..])
  }

  lemma {:induction false} AllCountUpdate(infos: seq<Info>, d: nat, f: Info, id: nat)
    requires d < |infos|
    ensures AllCount(infos[d := f], id) + InfoCount(infos[d], id) == AllCount(infos, id) + InfoCount(f, id)
    decreases |infos|
  {
    if d == 0 {
      assert infos[0 := f][1..] == infos[1..];
    } else {
      assert infos[d := f][1..] == infos[1..][d - 1 := f];
      AllCountUpdate(infos[1..], d - 1, f, id);
    }
  }

  lemma {:induction false} TodoAppend(todo: seq<seq<Entry>>, more: seq<seq<Entry>>, id: nat)
    ensures TodoCount(todo + more, id) == TodoCount(todo, id) + TodoCount(more, id)
    decreases |todo|
  {
    if todo == [] {
      assert todo + more == more;
    } else {
      assert (todo + more)[1..] == todo[1..] + more;
      TodoAppend(todo[1..], more, id);
    }
  }

  lemma {:induction false} EraseCount(es: seq<Entry>, keep: bool, id: nat)
    ensures Count(EraseAll(es, keep), id) == Count(es, id)
    decreases |es|
  {
    if es != [] {
      var n := |es| - 1;
      assert EraseAll(es, keep)[..n] == EraseAll(es[..n], keep);
      EraseCount(es[..n], keep, id);
    }
  }

  lemma WithTodoCount(f: Info, items: seq<Entry>, id: nat)
    ensures InfoCount(WithTodo(f, items), id) == InfoCount(f, id) + Count(items, id)
  {
    if items != [] {
      TodoAppend(f.todo, [items], id);
      assert [items][1..] == [] && TodoCount([], id) == 0;
    }
  }

  lemma WithTableCount(f: Info, which: Which, t: Finalisable, id: nat)
    ensures InfoCount(WithTable(f, which, t), id) ==
            InfoCount(f, id) - Count(TableOf(f, which).entries, id) + Count(t.entries, id)
  {
  }

  lemma SplitCount(es: seq<Entry>, n: nat, id: nat)
    requires n <= |es|
    ensures Count(es, id) == Count(es[..n], id) + Count(es[n..], id)
  {
    assert es == es[..n] + es[n..];
    CountAppend(es[..n], es[n..], id);
  }

  lemma UpdatedCount(t: Finalisable, white: set<nat>, keep: bool, id: nat)
    requires TableOk(t)
    ensures Count(Updated(t, white).entries, id) + Count(NewTodo(t, white, keep), id) == Count(t.entries, id)
  {
    var front := t.entries[..t.aged];
    SplitCount(t.entries, t.aged, id);
    PickConserves(front, white, id);
    CountAppend(Pick(front, white, false), t.entries[t.aged..], id);
    EraseCount(Pick(front, white, true), keep, id);
  }

  /** The places of a registration before the update are those after it and those that
      were written past the end of the list. */
  lemma MinorUpdatedCount(f: Info, young: set<nat>, copied: set<nat>, id: nat)
    requires TableOk(f.last) && copied <= young
    ensures DeadCount(Window(f), young, copied) <= |TakenOut(Window(f), young, copied)|
    ensures InfoCount(MinorUpdated(f, young, copied), id)
            + Count(TakenOut(Window(f), young, copied)[DeadCount(Window(f), young, copied)..], id) == InfoCount(f, id)
  {
    var t, window := f.last, Window(f);
    var front, taken, left := t.entries[..t.aged], TakenOut(window, young, copied), LeftIn(window, young, copied);
    var count := DeadCount(window, young, copied);
    TakenAtLeast(window, young, copied);
    SplitCount(t.entries, t.aged, id);
    SelectConserves(window, DoneFlags(window, young, copied), id);
    CountAppend(front, left, id);
    SplitCount(taken, count, id);
    assert EraseAll(taken, false)[..count] == EraseAll(taken[..count], false);
    EraseCount(taken[..count], false, id);
    WithTodoCount(f.(last := Finalisable(front + left, t.aged)), Published(window, young, copied), id);
  }

  /** The minor update keeps every registration in as many places as before exactly when
      the counted size fits what is taken out. */
  lemma MinorConservesExact(f: Info, young: set<nat>, copied: set<nat>)
    requires TableOk(f.last) && copied <= young
    ensures (forall id: nat :: InfoCount(MinorUpdated(f, young, copied), id) == InfoCount(f, id)) <==>
            Fits(Window(f), young, copied)
  {
    var count, taken := DeadCount(Window(f), young, copied), TakenOut(Window(f), young, copied);
    TakenAtLeast(Window(f), young, copied);
    forall id: nat
      ensures InfoCount(MinorUpdated(f, young, copied), id) + Count(taken[count..], id) == InfoCount(f, id)
    {
      MinorUpdatedCount(f, young, copied, id);
    }
    if |taken| > count {
      CountAt(taken[count..], 0);
    } else {
      assert taken[count..] == [];
    }
  }

  lemma CallCount(todo: seq<seq<Entry>>, id: nat)
    requires todo != []
    ensures TodoCount(AfterCall(todo), id) + Count(CallNext(todo), id) == TodoCount(todo, id)
  {
    var items := todo[0];
    if items != [] {
      var n := |items| - 1;
      CountOne(items[n], id);
      if n > 0 {
        assert ([items[..n]] + todo[1..])[1..] == todo[1..];
      } else {
        assert items[..n] == [];
      }
    }
  }

  /** What each step does to the number of places of a registration: nothing, except that
      a new one gets its first. */
  lemma StepCount(w: World, s: Step, id: nat)
    requires WorldOk(w) && Enabled(w, s)
    ensures Census(Apply(w, s), id) == Census(w, id) + if s.Register? && id == w.next then 1 else 0
  {
    var f := w.infos[s.d];
    assert InfoOk(f);
    match s
    case Register(_, _, _, _, _) => RegisterCount(w, s, id);
    case Update(_, _, _) => UpdateCount(w, s, id);
    case MinorUpdate(d, young, copied) =>
      MinorConservesExact(f, young, copied);
      AllCountUpdate(w.infos, d, MinorUpdated(f, young, copied), id);
    case EmptyYoung(d) => AllCountUpdate(w.infos, d, Apply(w, s).infos[d], id);
    case Call(d) =>
      CallCount(f.todo, id);
      AllCountUpdate(w.infos, d, f.(todo := AfterCall(f.todo)), id);
      CountAppend(w.called, CallNext(f.todo), id);
    case Orphan(d) =>
      AllCountUpdate(w.infos, d, NO_INFO, id);
      assert ([f] + w.orphans)[1..] == w.orphans;
    case Adopt(_) => AdoptCount(w, s, id);
  }

  lemma RegisterCount(w: World, s: Step, id: nat)
    requires WorldOk(w) && Enabled(w, s) && s.Register?
    ensures Census(Apply(w, s), id) == Census(w, id) + if id == w.next then 1 else 0
  {
    var f := w.infos[s.d];
    var t, e := TableOf(f, s.which), Entry(w.next, s.fn, s.val, s.offset);
    CountAppend(t.entries, [e], id);
    CountOne(e, id);
    WithTableCount(f, s.which, AddEntry(t, e), id);
    AllCountUpdate(w.infos, s.d, WithTable(f, s.which, AddEntry(t, e)), id);
  }

  lemma UpdateCount(w: World, s: Step, id: nat)
    requires WorldOk(w) && Enabled(w, s) && s.Update?
    ensures Census(Apply(w, s), id) == Census(w, id)
  {
    var f := w.infos[s.d];
    assert InfoOk(f);
    var t := TableOf(f, s.which);
    var f1, items := WithTable(f, s.which, Updated(t, s.white)), NewTodo(t, s.white, s.which == First);
    UpdatedCount(t, s.white, s.which == First, id);
    WithTableCount(f, s.which, Updated(t, s.white), id);
    WithTodoCount(f1, items, id);
    AllCountUpdate(w.infos, s.d, WithTodo(f1, items), id);
  }

  lemma AdoptCount(w: World, s: Step, id: nat)
    requires WorldOk(w) && Enabled(w, s) && s.Adopt?
    ensures Census(Apply(w, s), id) == Census(w, id)
  {
    var f, g := w.infos[s.d], w.orphans[0];
    CountAppend(g.first.entries, f.first.entries, id);
    CountAppend(g.last.entries, f.last.entries, id);
    TodoAppend(f.todo, g.todo, id);
    AllCountUpdate(w.infos, s.d, Info(Merge(g.first, f.first), Merge(g.last, f.last), f.todo + g.todo), id);
  }

  /** `old` never passes the end of a table. */
  lemma StepOk(w: World, s: Step)
    requires WorldOk(w) && Enabled(w, s)
    ensures WorldOk(Apply(w, s))
  {
    assert InfoOk(w.infos[s.d]);
    if s.Adopt? {
      assert InfoOk(w.orphans[0]);
    }
  }

  lemma StepConserves(w: World, s: Step)
    requires Conserved(w) && Enabled(w, s)
    ensures Conserved(Apply(w, s))
  {
    StepOk(w, s);
    forall id: nat ensures Census(Apply(w, s), id) == if id < Apply(w, s).next then 1 else 0 {
      StepCount(w, s, id);
    }
  }

  ghost predicate Reaches(w: World, steps: seq<Step>, w': World)
    decreases |steps|
  {
    if steps == [] then w' == w
    else WorldOk(w) && Enabled(w, steps[0]) && Reaches(Apply(w, steps[0]), steps[1..], w')
  }

  /** Over every run: what was registered is, once, in a table, on a list, with the orphans
      or among the functions called. */
  lemma {:induction false} RunConserves(w: World, steps: seq<Step>, w': World)
    requires Conserved(w) && Reaches(w, steps, w')
    ensures Conserved(w')
    decreases |steps|
  {
    if steps != [] {
      StepConserves(w, steps[0]);
      RunConserves(Apply(w, steps[0]), steps[1..], w');
    }
  }

  /** So nothing is called twice, and nothing that was called is anywhere else. */
  lemma CalledOnce(w: World, i: nat, j: nat)
    requires Conserved(w) && i < j < |w.called|
    ensures w.called[i].id != w.called[j].id && w.called[i].id < w.next
    ensures AllCount(w.infos, w.called[i].id) == 0 && AllCount(w.orphans, w.called[i].id) == 0
  {
    var id := w.called[i].id;
    assert Census(w, id) == if id < w.next then 1 else 0;
    CountAt(w.called, i);
    TwiceCounted(w.called, i, j);
  }

  lemma {:induction false} CountAt(es: seq<Entry>, i: nat)
    requires i < |es|
    ensures Count(es, es[i].id) >= 1
    decreases |es|
  {
    if i < |es| - 1 {
      CountAt(es[..|es| - 1], i);
    }
  }

  lemma {:induction false} TwiceCounted(es: seq<Entry>, i: nat, j: nat)
    requires i < j < |es|
    ensures es[i].id == es[j].id ==> Count(es, es[i].id) >= 2
    decreases |es|
  {
    var n := |es| - 1;
    if j < n {
      TwiceCounted(es[..n], i, j);
    } else {
      CountAt(es[..n], i);
    }
  }

  ghost function TodoSize(todo: seq<seq<Entry>>): nat {
    if todo == [] then 0 else |todo[0]| + TodoSize(todo[1..])
  }

  lemma {:induction false} CallSize(todo: seq<seq<Entry>>, more: seq<seq<Entry>>)
    requires todo != []
    ensures more == [] ==>
      TodoSize(AfterCall(todo) + more) + |AfterCall(todo) + more| < TodoSize(todo) + |todo|
  {
    if more == [] {
      assert AfterCall(todo) + more == AfterCall(todo);
      if |todo[0]| > 1 {
        assert AfterCall(todo)[1..] == todo[1..];
      }
    }
  }

  /** The calls that the lists stand for: the lists in order, each from its end. */
  ghost function Calls(todo: seq<seq<Entry>>): seq<Entry> {
    if todo == [] then [] else Backwards(todo[0]) + Calls(todo[1..])
  }

  ghost function Backwards(es: seq<Entry>): seq<Entry> {
    if es == [] then [] else [es[|es| - 1]] + Backwards(es[..|es| - 1])
  }

  lemma CallFirst(todo: seq<seq<Entry>>)
    requires todo != []
    ensures Calls(todo) == CallNext(todo) + Calls(AfterCall(todo))
  {
    var list := todo[0];
    if |list| <= 1 {
      assert Backwards(list) == CallNext(todo);
    } else {
      assert AfterCall(todo)[1..] == todo[1..];
      Associate([list[|list| - 1]], Backwards(list[..|list| - 1]), Calls(todo[1..]));
    }
  }

  lemma {:induction false} CallsAppend(todo: seq<seq<Entry>>, more: seq<seq<Entry>>)
    ensures Calls(todo + more) == Calls(todo) + Calls(more)
    decreases |todo|
  {
    if todo == [] {
      assert todo + more == more;
    } else {
      assert (todo + more)[1..] == todo[1..] + more;
      CallsAppend(todo[1..], more);
      Associate(Backwards(todo[0]), Calls(todo[1..]), Calls(more));
    }
  }

  /** The lists that the first `n` functions called put at the end. */
  ghost function Added(added: seq<seq<seq<Entry>>>, n: nat): seq<seq<Entry>> {
    if n == 0 then [] else Added(added, n - 1) + AddedBy(added, n - 1)
  }

  /** Those that call number `k` puts there, by way of a collection. */
  function AddedBy(added: seq<seq<seq<Entry>>>, k: nat): seq<seq<Entry>> {
    if k < |added| then added[k] else []
  }

  /** What is called and what is left, after one more call. */
  lemma {:induction false} CallsTurn(rest: seq<seq<Entry>>, called: seq<Entry>, all: seq<seq<Entry>>,
                                     more: seq<seq<Entry>>)
    requires rest != [] && called + Calls(rest) == Calls(all)
    ensures called + CallNext(rest) + Calls(AfterCall(rest) + more) == Calls(all + more)
  {
    CallFirst(rest);
    CallsAppend(AfterCall(rest), more);
    CallsAppend(all, more);
    Associate(called, CallNext(rest), Calls(AfterCall(rest)));
    Associate(called + CallNext(rest), Calls(AfterCall(rest)), Calls(more));
  }

  lemma {:induction false} AddedTurn(todo: seq<seq<Entry>>, added: seq<seq<seq<Entry>>>, n: nat, next: seq<Entry>,
                                     more: seq<seq<Entry>>)
    requires |next| <= 1 && more == if next == [] then [] else AddedBy(added, n)
    ensures todo + Added(added, n) + more == todo + Added(added, n + |next|)
  {
    Associate(todo, Added(added, n), more);
  }

  /** The functions called, followed by those left, are those of the lists there were at
      first and of the lists added since, in order. */
  ghost predicate Accounted(todo: seq<seq<Entry>>, added: seq<seq<seq<Entry>>>, called: seq<Entry>,
                            rest: seq<seq<Entry>>) {
    called + Calls(rest) == Calls(todo + Added(added, |called|))
  }

  lemma {:induction false} AccountedTurn(todo: seq<seq<Entry>>, added: seq<seq<seq<Entry>>>, called: seq<Entry>,
                                         rest: seq<seq<Entry>>, more: seq<seq<Entry>>)
    requires rest != [] && Accounted(todo, added, called, rest)
    requires more == if CallNext(rest) == [] then [] else AddedBy(added, |called|)
    ensures Accounted(todo, added, called + CallNext(rest), AfterCall(rest) + more)
  {
    CallsTurn(rest, called, todo + Added(added, |called|), more);
    AddedTurn(todo, added, |called|, CallNext(rest), more);
  }

  /** One turn: the next function is called, and what it adds goes to the end. */
  method CallOne(rest: seq<seq<Entry>>, called: seq<Entry>, added: seq<seq<seq<Entry>>>, raising: set<nat>,
                 ghost todo: seq<seq<Entry>>)
    returns (rest': seq<seq<Entry>>, called': seq<Entry>, raised: bool)
    requires rest != [] && Accounted(todo, added, called, rest)
    requires forall i :: 0 <= i < |called| ==> called[i].fn !in raising
    ensures Accounted(todo, added, called', rest')
    ensures raised <==> called' != [] && called'[|called'| - 1].fn in raising
    ensures forall i :: 0 <= i < |called'| - 1 ==> called'[i].fn !in raising
    ensures |called| <= |called'| && (|called'| == |called| || |called| >= |added| ==>
              TodoSize(rest') + |rest'| < TodoSize(rest) + |rest|)
  {
    var next := CallNext(rest);
    var more := if next == [] then [] else AddedBy(added, |called|);
    AccountedTurn(todo, added, called, rest, more);
    CallSize(rest, more);
    rest', called' := AfterCall(rest) + more, called + next;
    raised := next != [] && next[0].fn in raising;
  }

  /** caml_final_do_calls_exn: it calls what is on the lists, in order, and what the
      functions called add to them, until there is nothing left or a function raises an
      exception. A call from within one of the functions does nothing. */
  method DoCalls(todo: seq<seq<Entry>>, running: bool, raising: set<nat>, added: seq<seq<seq<Entry>>>)
    returns (rest: seq<seq<Entry>>, called: seq<Entry>)
    ensures Accounted(todo, added, called, rest)
    ensures running ==> rest == todo && called == []
    ensures running || rest == [] || (called != [] && called[|called| - 1].fn in raising)
    ensures forall i :: 0 <= i < |called| - 1 ==> called[i].fn !in raising
  {
    rest, called := todo, [];
    AccountedFirst(todo, added);
    if running {
      return;
    }
    var raised := false;
    while rest != [] && !raised
      invariant Accounted(todo, added, called, rest)
      invariant raised <==> called != [] && called[|called| - 1].fn in raising
      invariant forall i :: 0 <= i < |called| - 1 ==> called[i].fn !in raising
      decreases if |called| < |added| then |added| - |called| else 0, TodoSize(rest) + |rest|
    {
      rest, called, raised := CallOne(rest, called, added, raising, todo);
    }
  }

  lemma AccountedFirst(todo: seq<seq<Entry>>, added: seq<seq<seq<Entry>>>)
    ensures Accounted(todo, added, [], todo)
  {
    assert todo + [] == todo && [] + Calls(todo) == Calls(todo);
  }
}
