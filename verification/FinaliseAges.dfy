/**
  The two parts of a table of finalisers (`runtime/finalise.c`): what was registered since the
  last minor collection of its domain is never in the part that only major collections look at.
 */
module FinaliseAges {

  import opened Finalise
  import opened FinaliseCalls

  ghost predicate NoneOf(es: seq<Entry>, ids: set<nat>) {
    forall i :: 0 <= i < |es| ==> es[i].id !in ids
  }

  ghost predicate Known(es: seq<Entry>, next: nat) {
    forall i :: 0 <= i < |es| ==> es[i].id < next
  }

  ghost predicate InfoKnown(f: Info, next: nat) {
    Known(f.first.entries, next) && Known(f.last.entries, next)
  }

  ghost predicate Past(ids: set<nat>, next: nat) {
    forall id :: id in ids ==> id < next
  }

  ghost predicate InfoClear(f: Info, ids: set<nat>) {
    NoneOf(f.first.entries, ids) && NoneOf(f.last.entries, ids)
  }

  /** None of the registrations `ids` is in the old part of a table. */
  ghost predicate InfoAged(f: Info, ids: set<nat>) {
    && InfoOk(f)
    && NoneOf(f.first.entries[..f.first.aged], ids) && NoneOf(f.last.entries[..f.last.aged], ids)
  }

  /** `recent` has, for each domain, what was registered since its last minor collection. */
  ghost predicate AgesOk(w: World, recent: seq<set<nat>>) {
    && |recent| == |w.infos|
    && (forall d :: 0 <= d < |recent| ==>
          InfoAged(w.infos[d], recent[d]) && InfoKnown(w.infos[d], w.next) && Past(recent[d], w.next))
    && (forall d, e :: 0 <= d < |recent| && 0 <= e < |recent| && d != e ==> InfoClear(w.infos[e], recent[d]))
    && (forall k :: 0 <= k < |w.orphans| ==> InfoKnown(w.orphans[k], w.next) && InfoOk(w.orphans[k]))
    && (forall k, d :: 0 <= k < |w.orphans| && 0 <= d < |recent| ==> InfoClear(w.orphans[k], recent[d]))
  }

  /** A domain ends after a minor collection. */
  ghost predicate Allowed(w: World, recent: seq<set<nat>>, s: Step) {
    WorldOk(w) && |recent| == |w.infos| && Enabled(w, s) && (s.Orphan? ==> recent[s.d] == {})
  }

  ghost function RecentAfter(w: World, recent: seq<set<nat>>, s: Step): seq<set<nat>>
    requires Allowed(w, recent, s)
  {
    if s.Register? then recent[s.d := recent[s.d] + {w.next}]
    else if s.EmptyYoung? then recent[s.d := {}]
    else recent
  }

  lemma WithinKnown(es: seq<Entry>, fs: seq<Entry>, next: nat)
    requires Within(es, fs) && Known(fs, next)
    ensures Known(es, next)
  {
  }

  /** A table of which some entries are taken out. */
  ghost predicate Shrunk(f: Info, g: Info) {
    && InfoOk(f) && InfoOk(g)
    && Within(g.first.entries, f.first.entries) && Within(g.last.entries, f.last.entries)
    && Within(g.first.entries[..g.first.aged], f.first.entries[..f.first.aged])
    && Within(g.last.entries[..g.last.aged], f.last.entries[..f.last.aged])
  }

  lemma SameShrunk(f: Info, g: Info)
    requires InfoOk(f) && g.first == f.first && g.last == f.last
    ensures Shrunk(f, g)
  {
  }

  lemma UpdateShrunk(f: Info, which: Which, white: set<nat>, items: seq<Entry>)
    requires InfoOk(f)
    ensures Shrunk(f, WithTodo(WithTable(f, which, Updated(TableOf(f, which), white)), items))
  {
    var t := TableOf(f, which);
    var t' := Updated(t, white);
    var front := t.entries[..t.aged];
    PickWithin(front, white, false);
    assert t'.entries[..t'.aged] == Pick(front, white, false);
    assert t.entries == front + t.entries[t.aged..];
  }

  lemma MinorShrunk(f: Info, young: set<nat>, copied: set<nat>)
    requires InfoOk(f) && copied <= young
    ensures Shrunk(f, MinorUpdated(f, young, copied))
  {
    var t, window := f.last, Window(f);
    SelectWithin(window, DoneFlags(window, young, copied), false);
    var t' := MinorUpdated(f, young, copied).last;
    assert t'.entries[..t'.aged] == t.entries[..t.aged];
    assert t.entries == t.entries[..t.aged] + window;
  }

  /** One domain's tables and recent registrations change; orphans may go away. */
  lemma ReplaceInfo(w: World, recent: seq<set<nat>>, d: nat, g: Info, ids: set<nat>, w': World, n: nat)
    requires AgesOk(w, recent) && d < |recent| && n <= |w.orphans| && w'.next >= w.next
    requires w'.infos == w.infos[d := g] && w'.orphans == w.orphans[n..]
    requires InfoAged(g, ids) && InfoKnown(g, w'.next) && Past(ids, w'.next)
    requires forall e :: 0 <= e < |recent| && e != d ==> InfoClear(g, recent[e]) && InfoClear(w.infos[e], ids)
    requires forall k :: 0 <= k < |w.orphans| ==> InfoClear(w.orphans[k], ids)
    ensures AgesOk(w', recent[d := ids])
  {
    forall e | 0 <= e < |recent| && e != d ensures InfoKnown(w.infos[e], w'.next) && Past(recent[e], w'.next) {
      assert InfoKnown(w.infos[e], w.next) && Past(recent[e], w.next);
    }
    forall k | 0 <= k < |w.orphans| ensures InfoKnown(w.orphans[k], w'.next) {
      assert InfoKnown(w.orphans[k], w.next);
    }
  }

  /** Taking entries out of a domain's tables keeps the ages. */
  lemma ShrinkAges(w: World, recent: seq<set<nat>>, d: nat, g: Info, w': World)
    requires AgesOk(w, recent) && d < |recent| && Shrunk(w.infos[d], g)
    requires w'.infos == w.infos[d := g] && w'.orphans == w.orphans && w'.next == w.next
    ensures AgesOk(w', recent)
  {
    var f := w.infos[d];
    assert InfoAged(f, recent[d]) && InfoKnown(f, w.next);
    WithinKnown(g.first.entries, f.first.entries, w.next);
    WithinKnown(g.last.entries, f.last.entries, w.next);
    forall e | 0 <= e < |recent| && e != d ensures InfoClear(g, recent[e]) {
      assert InfoClear(f, recent[e]);
    }
    assert w.orphans[0..] == w.orphans && recent[d := recent[d]] == recent;
    ReplaceInfo(w, recent, d, g, recent[d], w', 0);
  }

  lemma RegisterAges(w: World, recent: seq<set<nat>>, s: Step)
    requires AgesOk(w, recent) && Allowed(w, recent, s) && s.Register?
    ensures AgesOk(Apply(w, s), RecentAfter(w, recent, s))
  {
    var f, d, ids := w.infos[s.d], s.d, recent[s.d] + {w.next};
    assert InfoAged(f, recent[d]) && InfoKnown(f, w.next) && Past(recent[d], w.next);
    var t, e := TableOf(f, s.which), Entry(w.next, s.fn, s.val, s.offset);
    var g := WithTable(f, s.which, AddEntry(t, e));
    assert AddEntry(t, e).entries[..t.aged] == t.entries[..t.aged];
    forall c | 0 <= c < |recent| && c != d ensures InfoClear(g, recent[c]) && InfoClear(w.infos[c], ids) {
      assert InfoClear(f, recent[c]) && Past(recent[c], w.next);
      assert InfoClear(w.infos[c], recent[d]) && InfoKnown(w.infos[c], w.next);
    }
    forall k | 0 <= k < |w.orphans| ensures InfoClear(w.orphans[k], ids) {
      assert InfoClear(w.orphans[k], recent[d]) && InfoKnown(w.orphans[k], w.next);
    }
    assert w.orphans[0..] == w.orphans;
    ReplaceInfo(w, recent, d, g, ids, Apply(w, s), 0);
  }

  lemma EmptyAges(w: World, recent: seq<set<nat>>, s: Step)
    requires AgesOk(w, recent) && Allowed(w, recent, s) && s.EmptyYoung?
    ensures AgesOk(Apply(w, s), RecentAfter(w, recent, s))
  {
    var f := w.infos[s.d];
    assert InfoKnown(f, w.next);
    var g := Apply(w, s).infos[s.d];
    forall e | 0 <= e < |recent| && e != s.d ensures InfoClear(g, recent[e]) {
      assert InfoClear(f, recent[e]);
    }
    assert w.orphans[0..] == w.orphans;
    ReplaceInfo(w, recent, s.d, g, {}, Apply(w, s), 0);
  }

  lemma OrphanAges(w: World, recent: seq<set<nat>>, s: Step)
    requires AgesOk(w, recent) && Allowed(w, recent, s) && s.Orphan?
    ensures AgesOk(Apply(w, s), RecentAfter(w, recent, s))
  {
    var f := w.infos[s.d];
    assert InfoAged(f, recent[s.d]) && InfoKnown(f, w.next);
    assert InfoAged(NO_INFO, recent[s.d]) && InfoKnown(NO_INFO, w.next);
  }

  /** The merged tables: what the orphans bring goes into the old part. */
  lemma MergeAged(t: Finalisable, u: Finalisable, ids: set<nat>)
    requires TableOk(u) && NoneOf(t.entries, ids) && NoneOf(u.entries[..u.aged], ids)
    ensures var m := Merge(t, u); TableOk(m) && NoneOf(m.entries[..m.aged], ids)
  {
    var m := Merge(t, u);
    assert m.entries[..m.aged] == t.entries + u.entries[..u.aged];
  }

  lemma AdoptAges(w: World, recent: seq<set<nat>>, s: Step)
    requires AgesOk(w, recent) && Allowed(w, recent, s) && s.Adopt?
    ensures AgesOk(Apply(w, s), RecentAfter(w, recent, s))
  {
    var f, g := w.infos[s.d], w.orphans[0];
    assert InfoAged(f, recent[s.d]) && InfoKnown(f, w.next) && InfoKnown(g, w.next) && InfoClear(g, recent[s.d]);
    MergeAged(g.first, f.first, recent[s.d]);
    MergeAged(g.last, f.last, recent[s.d]);
    var m := Info(Merge(g.first, f.first), Merge(g.last, f.last), f.todo + g.todo);
    forall e | 0 <= e < |recent| && e != s.d ensures InfoClear(m, recent[e]) {
      assert InfoClear(f, recent[e]) && InfoClear(g, recent[e]);
    }
    assert recent[s.d := recent[s.d]] == recent;
    ReplaceInfo(w, recent, s.d, m, recent[s.d], Apply(w, s), 1);
  }

  lemma StepAges(w: World, recent: seq<set<nat>>, s: Step)
    requires AgesOk(w, recent) && Allowed(w, recent, s)
    ensures AgesOk(Apply(w, s), RecentAfter(w, recent, s))
  {
    var f := w.infos[s.d];
    assert InfoOk(f);
    match s
    case Register(_, _, _, _, _) => RegisterAges(w, recent, s);
    case Update(d, which, white) =>
      UpdateShrunk(f, which, white, NewTodo(TableOf(f, which), white, which == First));
      ShrinkAges(w, recent, d, Apply(w, s).infos[d], Apply(w, s));
    case MinorUpdate(d, young, copied) =>
      MinorShrunk(f, young, copied);
      ShrinkAges(w, recent, d, Apply(w, s).infos[d], Apply(w, s));
    case EmptyYoung(_) => EmptyAges(w, recent, s);
    case Call(d) =>
      SameShrunk(f, Apply(w, s).infos[d]);
      ShrinkAges(w, recent, d, Apply(w, s).infos[d], Apply(w, s));
    case Orphan(_) => OrphanAges(w, recent, s);
    case Adopt(_) => AdoptAges(w, recent, s);
  }

  /** Runs in which domains end only after a minor collection. */
  ghost predicate ReachesAged(w: World, recent: seq<set<nat>>, steps: seq<Step>, w': World, recent': seq<set<nat>>)
    decreases |steps|
  {
    if steps == [] then w' == w && recent' == recent
    else
      && Allowed(w, recent, steps[0])
      && ReachesAged(Apply(w, steps[0]), RecentAfter(w, recent, steps[0]), steps[1..], w', recent')
  }

  /** Over every such run, a value that may be in the minor heap is in the young part of the table
      of its domain, where the minor update looks for it. */
  lemma {:induction false} RunAges(w: World, recent: seq<set<nat>>, steps: seq<Step>, w': World, recent': seq<set<nat>>)
    requires AgesOk(w, recent) && ReachesAged(w, recent, steps, w', recent')
    ensures AgesOk(w', recent')
    decreases |steps|
  {
    if steps != [] {
      StepAges(w, recent, steps[0]);
      RunAges(Apply(w, steps[0]), RecentAfter(w, recent, steps[0]), steps[1..], w', recent');
    }
  }
}
