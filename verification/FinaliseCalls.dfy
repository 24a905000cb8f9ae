/**
  What finalisers are called with (`runtime/finalise.c`): over every run, the function called is
  the one that was registered, with its value and offset for Gc.finalise, and with unit for
  Gc.finalise_last.
 */
module FinaliseCalls {

  import opened Finalise

  /** A registration: in which table, and with what. */
  datatype Registration = Registration(which: Which, entry: Entry)

  /** `e` is the entry that was registered under its number. */
  ghost predicate AsRegistered(e: Entry, which: Which, log: seq<Registration>) {
    e.id < |log| && log[e.id] == Registration(which, e)
  }

  /** `e` is what its registration asks to be called. */
  ghost predicate Due(e: Entry, log: seq<Registration>) {
    && e.id < |log|
    && var r := log[e.id].entry;
      && e.id == r.id && e.fn == r.fn
      && (log[e.id].which == First ==> e.val == r.val && e.offset == r.offset)
      && (log[e.id].which == Last ==> e.val == UNIT && e.offset == 0)
  }

  ghost predicate AllRegistered(es: seq<Entry>, which: Which, log: seq<Registration>) {
    forall i :: 0 <= i < |es| ==> AsRegistered(es[i], which, log)
  }

  ghost predicate AllDue(es: seq<Entry>, log: seq<Registration>) {
    forall i :: 0 <= i < |es| ==> Due(es[i], log)
  }

  ghost predicate TodoDue(todo: seq<seq<Entry>>, log: seq<Registration>) {
    forall k :: 0 <= k < |todo| ==> AllDue(todo[k], log)
  }

  ghost predicate InfoTrue(f: Info, log: seq<Registration>) {
    && AllRegistered(f.first.entries, First, log) && AllRegistered(f.last.entries, Last, log)
    && TodoDue(f.todo, log)
  }

  ghost predicate InfosTrue(fs: seq<Info>, log: seq<Registration>) {
    forall d :: 0 <= d < |fs| ==> InfoTrue(fs[d], log)
  }

  /** Everything that is anywhere is as it was registered, or as it is due. */
  ghost predicate WorldTrue(w: World, log: seq<Registration>) {
    |log| == w.next && InfosTrue(w.infos, log) && InfosTrue(w.orphans, log) && AllDue(w.called, log)
  }

  /** The registrations after a step, and after a run. */
  ghost function Logged(log: seq<Registration>, s: Step): seq<Registration> {
    if s.Register? then log + [Registration(s.which, Entry(|log|, s.fn, s.val, s.offset))] else log
  }

  ghost function LoggedAll(log: seq<Registration>, steps: seq<Step>): seq<Registration>
    decreases |steps|
  {
    if steps == [] then log else LoggedAll(Logged(log, steps[0]), steps[1..])
  }

  // ------------------------------------------------------------------ what is kept

  ghost predicate Within(es: seq<Entry>, fs: seq<Entry>) {
    forall i :: 0 <= i < |es| ==> es[i] in fs
  }

  lemma {:induction false} PickWithin(es: seq<Entry>, white: set<nat>, inside: bool)
    ensures Within(Pick(es, white, inside), es)
    decreases |es|
  {
    if es != [] {
      var n := |es| - 1;
      PickWithin(es[..n], white, inside);
      assert es == es[..n] + [es[n]];
    }
  }

  lemma {:induction false} SelectWithin(es: seq<Entry>, flags: seq<bool>, flag: bool)
    requires |flags| == |es|
    ensures Within(Select(es, flags, flag), es)
    decreases |es|
  {
    if es != [] {
      var n := |es| - 1;
      SelectWithin(es[..n], flags[..n], flag);
      assert es == es[..n] + [es[n]];
    }
  }

  lemma WithinRegistered(es: seq<Entry>, fs: seq<Entry>, which: Which, log: seq<Registration>)
    requires Within(es, fs) && AllRegistered(fs, which, log)
    ensures AllRegistered(es, which, log)
  {
  }

  /** What is put on a list is what is due: with the value exactly for Gc.finalise. */
  lemma EraseDue(es: seq<Entry>, which: Which, log: seq<Registration>)
    requires AllRegistered(es, which, log)
    ensures AllDue(EraseAll(es, which == First), log)
  {
    var items := EraseAll(es, which == First);
    forall i | 0 <= i < |items| ensures Due(items[i], log) {
      assert AsRegistered(es[i], which, log);
    }
  }

  lemma WithTodoDue(f: Info, items: seq<Entry>, log: seq<Registration>)
    requires InfoTrue(f, log) && AllDue(items, log)
    ensures InfoTrue(WithTodo(f, items), log)
  {
  }

  lemma UpdateTrue(f: Info, which: Which, white: set<nat>, log: seq<Registration>)
    requires InfoTrue(f, log) && InfoOk(f)
    ensures var t := TableOf(f, which);
      InfoTrue(WithTodo(WithTable(f, which, Updated(t, white)), NewTodo(t, white, which == First)), log)
  {
    var t := TableOf(f, which);
    var front := t.entries[..t.aged];
    PickWithin(front, white, false);
    PickWithin(front, white, true);
    WithinRegistered(Pick(front, white, false), front, which, log);
    WithinRegistered(Pick(front, white, true), front, which, log);
    EraseDue(Pick(front, white, true), which, log);
    WithTodoDue(WithTable(f, which, Updated(t, white)), NewTodo(t, white, which == First), log);
  }

  lemma MinorTrue(f: Info, young: set<nat>, copied: set<nat>, log: seq<Registration>)
    requires InfoTrue(f, log) && InfoOk(f) && copied <= young
    ensures InfoTrue(MinorUpdated(f, young, copied), log)
  {
    var t, window := f.last, Window(f);
    var taken, left := TakenOut(window, young, copied), LeftIn(window, young, copied);
    SelectWithin(window, DoneFlags(window, young, copied), true);
    SelectWithin(window, DoneFlags(window, young, copied), false);
    WithinRegistered(taken, window, Last, log);
    WithinRegistered(left, window, Last, log);
    EraseDue(taken, Last, log);
    TakenAtLeast(window, young, copied);
    assert Published(window, young, copied) == EraseAll(taken, Last == First)[..DeadCount(window, young, copied)];
    WithTodoDue(f.(last := Finalisable(t.entries[..t.aged] + left, t.aged)), Published(window, young, copied), log);
  }

  /** Registering more changes nothing for what is registered. */
  lemma InfoLogged(f: Info, log: seq<Registration>, r: Registration)
    requires InfoTrue(f, log)
    ensures InfoTrue(f, log + [r])
  {
    forall k | 0 <= k < |f.todo| ensures AllDue(f.todo[k], log + [r]) {
      DueLogged(f.todo[k], log, r);
    }
  }

  lemma DueLogged(es: seq<Entry>, log: seq<Registration>, r: Registration)
    requires AllDue(es, log)
    ensures AllDue(es, log + [r])
  {
    forall i | 0 <= i < |es| ensures Due(es[i], log + [r]) {
      assert Due(es[i], log);
    }
  }

  lemma RegisterTrue(w: World, s: Step, log: seq<Registration>)
    requires WorldOk(w) && Enabled(w, s) && s.Register? && WorldTrue(w, log)
    ensures WorldTrue(Apply(w, s), Logged(log, s))
  {
    var e := Entry(|log|, s.fn, s.val, s.offset);
    var r := Registration(s.which, e);
    forall d | 0 <= d < |w.infos| ensures InfoTrue(w.infos[d], log + [r]) {
      InfoLogged(w.infos[d], log, r);
    }
    forall k | 0 <= k < |w.orphans| ensures InfoTrue(w.orphans[k], log + [r]) {
      InfoLogged(w.orphans[k], log, r);
    }
    DueLogged(w.called, log, r);
    AddedTrue(w.infos[s.d], s.which, e, log + [r]);
  }

  lemma AddedTrue(f: Info, which: Which, e: Entry, log: seq<Registration>)
    requires InfoTrue(f, log) && AsRegistered(e, which, log)
    ensures InfoTrue(WithTable(f, which, AddEntry(TableOf(f, which), e)), log)
  {
  }

  lemma CallTrue(todo: seq<seq<Entry>>, log: seq<Registration>)
    requires todo != [] && TodoDue(todo, log)
    ensures TodoDue(AfterCall(todo), log) && AllDue(CallNext(todo), log)
  {
    assert AllDue(todo[0], log);
  }

  lemma MergeTrue(f: Info, g: Info, log: seq<Registration>)
    requires InfoTrue(f, log) && InfoTrue(g, log)
    ensures InfoTrue(Info(Merge(g.first, f.first), Merge(g.last, f.last), f.todo + g.todo), log)
  {
  }

  lemma StepTrue(w: World, s: Step, log: seq<Registration>)
    requires WorldOk(w) && Enabled(w, s) && WorldTrue(w, log)
    ensures WorldTrue(Apply(w, s), Logged(log, s))
  {
    var f := w.infos[s.d];
    assert InfoOk(f) && InfoTrue(f, log);
    match s
    case Register(_, _, _, _, _) => RegisterTrue(w, s, log);
    case Update(_, which, white) => UpdateTrue(f, which, white, log);
    case MinorUpdate(_, young, copied) => MinorTrue(f, young, copied, log);
    case EmptyYoung(_) =>
    case Call(_) => CallTrue(f.todo, log);
    case Orphan(_) => assert InfoTrue(NO_INFO, log);
    case Adopt(_) => MergeTrue(f, w.orphans[0], log);
  }

  /** Over every run, what is called is what was registered, and called as it asked for. */
  lemma {:induction false} RunTrue(w: World, steps: seq<Step>, w': World, log: seq<Registration>)
    requires WorldOk(w) && WorldTrue(w, log) && Reaches(w, steps, w')
    ensures WorldTrue(w', LoggedAll(log, steps))
    decreases |steps|
  {
    if steps != [] {
      StepTrue(w, steps[0], log);
      StepOk(w, steps[0]);
      RunTrue(Apply(w, steps[0]), steps[1..], w', Logged(log, steps[0]));
    }
  }

  // ------------------------------------------------------------------- in what order

  /** The calls that a domain still has to make are a queue: a step calls the first of them, adds
      at the end, or gives all of them up to another domain. */
  lemma CallsQueue(w: World, s: Step, d: nat)
    requires WorldOk(w) && Enabled(w, s) && d < |w.infos|
    ensures var w' := Apply(w, s);
      var before, after := Calls(w.infos[d].todo), Calls(w'.infos[d].todo);
      if s.Call? && s.d == d then
        var next := CallNext(w.infos[d].todo);
        before == next + after && w'.called == w.called + next
      else if s.Orphan? && s.d == d then after == [] && w'.orphans != [] && Calls(w'.orphans[0].todo) == before
      else before <= after && (s.d != d ==> after == before)
  {
    var f := w.infos[s.d];
    assert InfoOk(f);
    match s
    case Update(_, which, white) => CallsAppend(f.todo, [NewTodo(TableOf(f, which), white, which == First)]);
    case MinorUpdate(_, young, copied) => CallsAppend(f.todo, [Published(Window(f), young, copied)]);
    case Call(_) => CallFirst(f.todo);
    case Adopt(_) => CallsAppend(f.todo, w.orphans[0].todo);
    case _ =>
  }
}
