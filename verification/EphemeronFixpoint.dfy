/**
  Distributed detection of the end of ephemeron marking (`runtime/major_gc.c`).

  Domains mark the heap and scan their own ephemeron lists concurrently. A round
  number (`ephe_cycle`) and three counters decide when no more ephemeron can become
  live. The steps below are the atomic updates of those counters, the marking of a
  block, the examination of one ephemeron, and the replacement of its keys.
 */
module EphemeronFixpoint {

  import opened Common

  type Block = nat
  type Ephe = nat
  type Domain = nat

  /** An ephemeron: itself a block, with the keys that are major blocks. */
  datatype Ephemeron = Ephemeron(self: Block, keys: set<Block>, data: set<Block>)

  /** Where a domain stands in `mark`: marking, round advanced (ephe_next_cycle) but
      marking_done still 0, marking_done 1 but num_domains_to_mark not yet lowered,
      and done. */
  datatype Marking = Marking | Advanced | Flagged | Done

  datatype Dom = Dom(
    marking: Marking,
    counted: bool,          // still among num_domains_todo
    todo: set<Ephe>,        // ephe_info->todo
    round: nat,             // ephe_info->cycle
    cursorRound: nat,       // ephe_info->cursor.cycle
    examined: set<Ephe>,    // the todo entries before the cursor
    saved: Option<nat>)     // saved_ephe_cycle of the slice in progress

  const FRESH_DOM := Dom(Done, false, {}, 0, 0, {}, None)

  datatype State = State(
    ephe: map<Ephe, Ephemeron>,
    marked: set<Block>,
    round: nat,             // ephe_cycle_info.ephe_cycle
    toMark: int,            // num_domains_to_mark
    numTodo: int,           // ephe_cycle_info.num_domains_todo
    numDone: int,           // ephe_cycle_info.num_domains_done
    doms: map<Domain, Dom>)

  /** An ephemeron whose data the collector must keep: itself and its keys are marked. */
  predicate Live(s: State, e: Ephe) {
    e in s.ephe && s.ephe[e].self in s.marked && s.ephe[e].keys <= s.marked
  }

  function SetDom(s: State, d: Domain, dom: Dom): State {
    s.(doms := s.doms[d := dom])
  }

  // ----------------------------------------------------------------- marking

  /** caml_darken on a domain that had finished: it counts as marking again. */
  predicate CanReopen(s: State, d: Domain) {
    d in s.doms && s.doms[d].marking == Done
  }

  function ReopenStep(s: State, d: Domain): State
    requires CanReopen(s, d)
  {
    SetDom(s.(toMark := s.toMark + 1), d, s.doms[d].(marking := Marking))
  }

  predicate CanMark(s: State, d: Domain) {
    d in s.doms && s.doms[d].marking == Marking
  }

  function MarkStep(s: State, b: Block): State {
    s.(marked := s.marked + {b})
  }

  /** ephe_next_cycle, by a domain whose mark stack is exhausted. */
  predicate CanAdvance(s: State, d: Domain) {
    d in s.doms && s.doms[d].marking == Marking
  }

  function AdvanceStep(s: State, d: Domain): State
    requires CanAdvance(s, d)
  {
    SetDom(s.(round := s.round + 1, numDone := 0), d, s.doms[d].(marking := Advanced))
  }

  predicate CanFlag(s: State, d: Domain) {
    d in s.doms && s.doms[d].marking == Advanced
  }

  function FlagStep(s: State, d: Domain): State
    requires CanFlag(s, d)
  {
    SetDom(s, d, s.doms[d].(marking := Flagged))
  }

  predicate CanUncount(s: State, d: Domain) {
    d in s.doms && s.doms[d].marking == Flagged
  }

  function UncountStep(s: State, d: Domain): State
    requires CanUncount(s, d)
  {
    SetDom(s.(toMark := s.toMark - 1), d, s.doms[d].(marking := Done))
  }

  // ------------------------------------------------- scanning the todo list

  /** A slice loads the round and calls ephe_mark for it, which resumes at the
      cursor if the cursor is of that round and restarts at the head otherwise. */
  predicate CanLoad(s: State, d: Domain) {
    d in s.doms && s.doms[d].saved.None? && s.doms[d].todo != {} && s.round > s.doms[d].round
  }

  function LoadStep(s: State, d: Domain): State
    requires CanLoad(s, d)
  {
    var dom := s.doms[d];
    SetDom(s, d, dom.(
      saved := Some(s.round),
      cursorRound := s.round,
      examined := if dom.cursorRound == s.round then dom.examined else {}))
  }

  predicate CanExamine(s: State, d: Domain, e: Ephe) {
    d in s.doms && s.doms[d].saved.Some? && e in s.doms[d].todo && e !in s.doms[d].examined
  }

  /** The ephemeron or one of its keys is seen unmarked: it stays on the list. */
  function ExamineDeadStep(s: State, d: Domain, e: Ephe): State
    requires CanExamine(s, d, e)
  {
    SetDom(s, d, s.doms[d].(examined := s.doms[d].examined + {e}))
  }

  /** It is live: its data has been darkened and it moves to the live list. */
  predicate CanExamineLive(s: State, d: Domain, e: Ephe) {
    CanExamine(s, d, e) && Live(s, e) && s.ephe[e].data <= s.marked
  }

  /** caml_orphan_ephemerons keeps an ephemeron alive whatever its keys. */
  predicate CanForce(s: State, d: Domain, e: Ephe) {
    && d in s.doms && s.doms[d].saved.None? && e in s.doms[d].todo
    && e in s.ephe && s.ephe[e].self in s.marked && s.ephe[e].data <= s.marked
  }

  function DropStep(s: State, d: Domain, e: Ephe): State
    requires d in s.doms
  {
    SetDom(s, d, s.doms[d].(todo := s.doms[d].todo - {e}))
  }

  /** The slice ends without recording: out of budget, or marking to do first. */
  predicate CanPause(s: State, d: Domain) {
    d in s.doms && s.doms[d].saved.Some?
  }

  function PauseStep(s: State, d: Domain): State
    requires CanPause(s, d)
  {
    SetDom(s, d, s.doms[d].(saved := None))
  }

  /** record_ephe_marking_done, after a complete scan by a domain done marking. */
  predicate CanRecord(s: State, d: Domain) {
    && d in s.doms && s.doms[d].saved.Some? && s.doms[d].marking == Done
    && s.doms[d].todo != {} && s.doms[d].todo <= s.doms[d].examined
  }

  function RecordStep(s: State, d: Domain): State
    requires CanRecord(s, d)
  {
    var dom := s.doms[d];
    if dom.saved.value < s.round then SetDom(s, d, dom.(saved := None))
    else SetDom(s.(numDone := s.numDone + 1), d, dom.(saved := None, round := dom.saved.value))
  }

  /** ephe_todo_list_emptied. */
  predicate CanEmptied(s: State, d: Domain) {
    d in s.doms && s.doms[d].counted && s.doms[d].todo == {}
  }

  function EmptiedStep(s: State, d: Domain): State
    requires CanEmptied(s, d)
  {
    SetDom(s.(numDone := 0, round := s.round + 1, numTodo := s.numTodo - 1), d,
           s.doms[d].(counted := false, saved := None))
  }

  // -------------------------------------------------- replacing keys meanwhile

  /** The ephemeron is before the cursor of a scan of the current round. */
  predicate ExaminedNow(s: State, d: Domain, e: Ephe)
    requires d in s.doms
  {
    s.doms[d].cursorRound == s.round && e in s.doms[d].examined && e in s.doms[d].todo
  }

  /** caml_ephe_set_key during the marking phases: a plain store, darkening nothing
      and advancing no round. */
  function SetKeysStep(s: State, e: Ephe, keys: set<Block>): State
    requires e in s.ephe
  {
    s.(ephe := s.ephe[e := s.ephe[e].(keys := keys)])
  }

  /** When that is harmless: some domain is still marking, and will start a new round; or
      no scan of this round has passed the ephemeron; or it is itself unmarked, or gets
      an unmarked key. The code does not look. */
  predicate CanSetKeys(s: State, e: Ephe, keys: set<Block>) {
    && e in s.ephe
    && (|| (exists d :: d in s.doms && s.doms[d].marking == Marking)
        || !(exists d :: d in s.doms && ExaminedNow(s, d, e))
        || !(s.ephe[e].self in s.marked && keys <= s.marked))
  }

  // -------------------------------------------------- the transition system

  datatype Step =
    | Reopen(d: Domain)
    | Mark(d: Domain, b: Block)
    | Advance(d: Domain)
    | Flag(d: Domain)
    | Uncount(d: Domain)
    | Load(d: Domain)
    | ExamineDead(d: Domain, e: Ephe)
    | ExamineLive(d: Domain, e: Ephe)
    | Force(d: Domain, e: Ephe)
    | Pause(d: Domain)
    | Record(d: Domain)
    | Emptied(d: Domain)
    | SetKeys(e: Ephe, keys: set<Block>)
    | Spawn(d: Domain)
    | Exit(d: Domain)

  predicate Enabled(s: State, st: Step) {
    match st
    case Reopen(d) => CanReopen(s, d)
    case Mark(d, _) => CanMark(s, d)
    case Advance(d) => CanAdvance(s, d)
    case Flag(d) => CanFlag(s, d)
    case Uncount(d) => CanUncount(s, d)
    case Load(d) => CanLoad(s, d)
    case ExamineDead(d, e) => CanExamine(s, d, e) && !Live(s, e)
    case ExamineLive(d, e) => CanExamineLive(s, d, e)
    case Force(d, e) => CanForce(s, d, e)
    case Pause(d) => CanPause(s, d)
    case Record(d) => CanRecord(s, d)
    case Emptied(d) => CanEmptied(s, d)
    case SetKeys(e, keys) => CanSetKeys(s, e, keys)
    case Spawn(d) => d !in s.doms
    case Exit(d) => d in s.doms && s.doms[d].marking == Done && !s.doms[d].counted
  }

  function Apply(s: State, st: Step): State
    requires Enabled(s, st)
  {
    match st
    case Reopen(d) => ReopenStep(s, d)
    case Mark(_, b) => MarkStep(s, b)
    case Advance(d) => AdvanceStep(s, d)
    case Flag(d) => FlagStep(s, d)
    case Uncount(d) => UncountStep(s, d)
    case Load(d) => LoadStep(s, d)
    case ExamineDead(d, e) => ExamineDeadStep(s, d, e)
    case ExamineLive(d, e) => DropStep(s, d, e)
    case Force(d, e) => DropStep(s, d, e)
    case Pause(d) => PauseStep(s, d)
    case Record(d) => RecordStep(s, d)
    case Emptied(d) => EmptiedStep(s, d)
    case SetKeys(e, keys) => SetKeysStep(s, e, keys)
    case Spawn(d) => SetDom(s, d, FRESH_DOM)
    case Exit(d) => s.(doms := s.doms - {d})
  }

  ghost predicate Reaches(s: State, steps: seq<Step>, s': State)
    decreases |steps|
  {
    if steps == [] then s == s'
    else Enabled(s, steps[0]) && Reaches(Apply(s, steps[0]), steps[1..], s')
  }

  // -------------------------------------------------------------- counters

  ghost function Busy(s: State): set<Domain> {
    set d | d in s.doms && s.doms[d].marking != Done
  }

  ghost function Counted(s: State): set<Domain> {
    set d | d in s.doms && s.doms[d].counted
  }

  /** The domains with ephemerons left that have recorded the current round. */
  ghost function Current(s: State): set<Domain> {
    set d | d in s.doms && s.doms[d].counted && s.doms[d].round == s.round
  }

  ghost predicate CountersOk(s: State) {
    && s.toMark == |Busy(s)|
    && s.numTodo == |Counted(s)|
    && s.numDone == |Current(s)|
  }

  ghost predicate DomOk(round: nat, dom: Dom) {
    && (!dom.counted ==> dom.todo == {})
    && dom.round <= round && dom.cursorRound <= round
    && (dom.saved.Some? ==> dom.round < dom.saved.value == dom.cursorRound)
    && (dom.round == round ==> dom.cursorRound == round && dom.todo <= dom.examined)
  }

  ghost predicate DomsOk(s: State) {
    s.round >= 1 && forall d :: d in s.doms ==> DomOk(s.round, s.doms[d])
  }

  /** While no domain is marking, what was examined in this round is still dead. */
  ghost predicate ExaminedDead(s: State) {
    || (exists d :: d in s.doms && s.doms[d].marking == Marking)
    || (forall d, e :: d in s.doms && ExaminedNow(s, d, e) ==> !Live(s, e))
  }

  ghost predicate Inv(s: State) {
    CountersOk(s) && DomsOk(s) && ExaminedDead(s)
  }

  lemma StepDoms(s: State, st: Step)
    requires DomsOk(s) && Enabled(s, st)
    ensures DomsOk(Apply(s, st))
  {
  }

  lemma StepExamined(s: State, st: Step)
    requires DomsOk(s) && ExaminedDead(s) && Enabled(s, st)
    ensures ExaminedDead(Apply(s, st))
  {
    var s' := Apply(s, st);
    if st.Advance? || st.Emptied? {
      assert forall d :: d in s'.doms ==> s'.doms[d].cursorRound < s'.round;
    } else if st.Reopen? {
      assert s'.doms[st.d].marking == Marking;
    } else if d :| d in s.doms && s.doms[d].marking == Marking {
      assert d in s'.doms && s'.doms[d].marking == Marking;
    } else {
      forall d, e | d in s'.doms && ExaminedNow(s', d, e) ensures !Live(s', e) {
        assert d in s.doms;
        assert ExaminedNow(s, d, e) || st == ExamineDead(d, e);
      }
    }
  }

  // ---------------------------------------------------------- counter lemmas

  lemma ReopenCounters(s: State, d: Domain)
    requires CountersOk(s) && CanReopen(s, d)
    ensures CountersOk(ReopenStep(s, d))
  {
    var s' := ReopenStep(s, d);
    assert d !in Busy(s);
    assert Busy(s') == Busy(s) + {d};
    assert Counted(s') == Counted(s);
    assert Current(s') == Current(s);
  }

  lemma UncountCounters(s: State, d: Domain)
    requires CountersOk(s) && CanUncount(s, d)
    ensures CountersOk(UncountStep(s, d))
  {
    var s' := UncountStep(s, d);
    assert Busy(s) == Busy(s') + {d};
    assert Counted(s') == Counted(s);
    assert Current(s') == Current(s);
  }

  lemma AdvanceCounters(s: State, d: Domain)
    requires CountersOk(s) && DomsOk(s) && CanAdvance(s, d)
    ensures CountersOk(AdvanceStep(s, d))
  {
    var s' := AdvanceStep(s, d);
    assert Busy(s') == Busy(s);
    assert Counted(s') == Counted(s);
    assert Current(s') == {};
  }

  lemma RecordCounters(s: State, d: Domain)
    requires CountersOk(s) && DomsOk(s) && CanRecord(s, d)
    ensures CountersOk(RecordStep(s, d))
  {
    var s' := RecordStep(s, d);
    assert DomOk(s.round, s.doms[d]);
    assert Busy(s') == Busy(s) && Counted(s') == Counted(s);
    if s.doms[d].saved.value < s.round {
      assert Current(s') == Current(s);
    } else {
      assert Current(s') == Current(s) + {d};
    }
  }

  lemma EmptiedCounters(s: State, d: Domain)
    requires CountersOk(s) && DomsOk(s) && CanEmptied(s, d)
    ensures CountersOk(EmptiedStep(s, d))
  {
    var s' := EmptiedStep(s, d);
    assert Busy(s') == Busy(s);
    assert Counted(s) == Counted(s') + {d};
    assert Current(s') == {};
  }

  lemma QuietCounters(s: State, st: Step)
    requires CountersOk(s) && Enabled(s, st)
    requires !st.Reopen? && !st.Uncount? && !st.Advance? && !st.Record? && !st.Emptied?
    ensures CountersOk(Apply(s, st))
  {
    var s' := Apply(s, st);
    assert Busy(s') == Busy(s);
    assert Counted(s') == Counted(s);
    assert Current(s') == Current(s);
  }

  lemma StepCounters(s: State, st: Step)
    requires CountersOk(s) && DomsOk(s) && Enabled(s, st)
    ensures CountersOk(Apply(s, st))
  {
    match st
    case Reopen(d) => ReopenCounters(s, d);
    case Uncount(d) => UncountCounters(s, d);
    case Advance(d) => AdvanceCounters(s, d);
    case Record(d) => RecordCounters(s, d);
    case Emptied(d) => EmptiedCounters(s, d);
    case _ => QuietCounters(s, st);
  }

  // -------------------------------------------------------------- whole runs

  /** The start of a major cycle, with the roots marked. */
  ghost predicate Init(s: State) {
    && s.round == 1 && s.numDone == 0 && s.numTodo == |s.doms.Keys| && s.toMark == |Busy(s)|
    && (forall d :: d in s.doms ==>
          && s.doms[d] == FRESH_DOM.(counted := true, todo := s.doms[d].todo, marking := s.doms[d].marking)
          && (s.doms[d].marking == Marking || s.doms[d].marking == Done))
  }

  lemma InitInv(s: State)
    requires Init(s)
    ensures Inv(s)
  {
    assert Counted(s) == s.doms.Keys;
    assert Current(s) == {};
  }

  lemma StepInv(s: State, st: Step)
    requires Inv(s) && Enabled(s, st)
    ensures Inv(Apply(s, st))
  {
    StepDoms(s, st);
    StepExamined(s, st);
    StepCounters(s, st);
  }

  lemma {:induction false} RunInv(s: State, steps: seq<Step>, s': State)
    requires Inv(s) && Reaches(s, steps, s')
    ensures Inv(s')
    decreases |steps|
  {
    if steps != [] {
      StepInv(s, steps[0]);
      RunInv(Apply(s, steps[0]), steps[1..], s');
    }
  }

  /** The test of is_complete_phase_sweep_and_mark_main and is_complete_phase_mark_final. */
  predicate Complete(s: State) {
    s.toMark == 0 && s.numDone == s.numTodo
  }

  ghost predicate NoLiveTodo(s: State) {
    forall d, e :: d in s.doms && e in s.doms[d].todo ==> !Live(s, e)
  }

  lemma CompleteMeansFixpoint(s: State)
    requires Inv(s) && Complete(s)
    ensures NoLiveTodo(s)
  {
    assert Busy(s) == {};
    assert Current(s) <= Counted(s);
    SubsetCardinality(Current(s), Counted(s));
    assert forall d :: d in s.doms ==> d !in Busy(s);
    forall d, e | d in s.doms && e in s.doms[d].todo ensures !Live(s, e) {
      assert DomOk(s.round, s.doms[d]);
      assert d in Counted(s);
      assert d in Current(s);
      assert ExaminedNow(s, d, e);
    }
  }

  // ------------------------------------------------------ the data of ephemerons

  ghost predicate OnTodo(s: State, e: Ephe) {
    exists d :: d in s.doms && e in s.doms[d].todo
  }

  ghost predicate DataMarked(s: State, e: Ephe) {
    e in s.ephe && s.ephe[e].data <= s.marked
  }

  /** An ephemeron leaves the todo lists only with its data marked, and marks stay. */
  lemma StepData(s: State, st: Step, e: Ephe)
    requires DomsOk(s) && Enabled(s, st) && (OnTodo(s, e) || DataMarked(s, e))
    ensures OnTodo(Apply(s, st), e) || DataMarked(Apply(s, st), e)
    ensures s.marked <= Apply(s, st).marked
    ensures e in s.ephe ==> e in Apply(s, st).ephe && Apply(s, st).ephe[e].data == s.ephe[e].data
  {
    var s' := Apply(s, st);
    if !DataMarked(s, e) {
      var d :| d in s.doms && e in s.doms[d].todo;
      assert DomOk(s.round, s.doms[d]);
      assert d in s'.doms && e in s'.doms[d].todo;
    }
  }

  lemma {:induction false} RunData(s: State, steps: seq<Step>, s': State, e: Ephe)
    requires Inv(s) && Reaches(s, steps, s') && (OnTodo(s, e) || DataMarked(s, e))
    ensures OnTodo(s', e) || DataMarked(s', e)
    ensures s.marked <= s'.marked && (e in s.ephe ==> e in s'.ephe && s'.ephe[e].data == s.ephe[e].data)
    decreases |steps|
  {
    if steps != [] {
      StepInv(s, steps[0]);
      StepData(s, steps[0], e);
      RunData(Apply(s, steps[0]), steps[1..], s', e);
    }
  }

  /** Ephemeron fixpoint, in any run. The counter num_domains_done is exactly the number of
      domains with ephemerons left that recorded this round. Whenever the phase-completion
      test succeeds, no ephemeron left on a todo list is live; and of every ephemeron that
      was on one at the start, and is live now, the data is marked. */
  lemma Fixpoint(s: State, steps: seq<Step>, s': State)
    requires Init(s) && Reaches(s, steps, s')
    ensures s'.numDone == |Current(s')| && s'.toMark == |Busy(s')|
    ensures Complete(s') ==> NoLiveTodo(s')
    ensures forall e :: OnTodo(s, e) ==> OnTodo(s', e) || DataMarked(s', e)
    ensures forall e :: OnTodo(s, e) && Complete(s') && Live(s', e) ==> s'.ephe[e].data <= s'.marked
    ensures forall e :: OnTodo(s, e) && e in s.ephe ==> e in s'.ephe && s'.ephe[e].data == s.ephe[e].data
  {
    InitInv(s);
    RunInv(s, steps, s');
    if Complete(s') {
      CompleteMeansFixpoint(s');
    }
    forall e | OnTodo(s, e)
      ensures OnTodo(s', e) || DataMarked(s', e)
      ensures e in s.ephe ==> e in s'.ephe && s'.ephe[e].data == s.ephe[e].data
    {
      RunData(s, steps, s', e);
    }
  }

  // -------------------------------------------------- when replacing keys is harmless

  lemma SetKeysLive(s: State, e: Ephe, keys: set<Block>, f: Ephe)
    requires e in s.ephe
    ensures Live(SetKeysStep(s, e, keys), f) <==>
            if f == e then s.ephe[e].self in s.marked && keys <= s.marked else Live(s, f)
  {
  }

  /** In every state, replacing keys keeps the invariant exactly under the guard. */
  lemma SetKeysExact(s: State, e: Ephe, keys: set<Block>)
    requires Inv(s) && e in s.ephe
    ensures Inv(SetKeysStep(s, e, keys)) <==> CanSetKeys(s, e, keys)
  {
    var s' := SetKeysStep(s, e, keys);
    if CanSetKeys(s, e, keys) {
      StepInv(s, SetKeys(e, keys));
    } else {
      SetKeysLive(s, e, keys, e);
      var d :| d in s.doms && ExaminedNow(s, d, e);
      assert ExaminedNow(s', d, e) && Live(s', e);
    }
  }

  /** Once the completion test has succeeded the invariant is not needed to say so: the
      guard decides whether a live ephemeron is left. */
  lemma SetKeysComplete(s: State, e: Ephe, keys: set<Block>)
    requires Inv(s) && Complete(s) && e in s.ephe
    ensures NoLiveTodo(SetKeysStep(s, e, keys)) <==> CanSetKeys(s, e, keys)
  {
    var s' := SetKeysStep(s, e, keys);
    if CanSetKeys(s, e, keys) {
      SetKeysExact(s, e, keys);
      CompleteMeansFixpoint(s');
    } else {
      SetKeysLive(s, e, keys, e);
      var d :| d in s.doms && ExaminedNow(s, d, e);
      assert e in s'.doms[d].todo;
    }
  }

  /** The guard is needed: one domain, one marked ephemeron with a dead key, scanned and
      recorded, then given a live key. */
  lemma SetKeysCounterexample() returns (s: State, steps: seq<Step>, s': State)
    ensures Init(s) && Reaches(s, steps, s') && Complete(s') && NoLiveTodo(s')
    ensures 0 in s'.ephe && s'.ephe[0].keys == {2} && 2 !in s'.marked && 1 in s'.marked
    ensures !NoLiveTodo(SetKeysStep(s', 0, {1}))
  {
    var dom := FRESH_DOM.(counted := true, todo := {0});
    s := State(map[0 := Ephemeron(1, {2}, {3})], {1}, 1, 0, 1, 0, map[0 := dom]);
    assert s.doms.Keys == {0};
    assert Busy(s) == {};
    steps := ScanSteps(0, 0);
    s' := ScanRun(s, 0, 0);
    InitInv(s);
    RunInv(s, steps, s');
    CompleteMeansFixpoint(s');
    assert Live(SetKeysStep(s', 0, {1}), 0);
    assert 0 in s'.doms[0].todo;
  }

  /** A domain scans its one ephemeron and records the round. */
  function ScanSteps(d: Domain, e: Ephe): seq<Step> {
    [Load(d), ExamineDead(d, e), Record(d)]
  }

  lemma ScanRun(s: State, d: Domain, e: Ephe) returns (s': State)
    requires d in s.doms && s.doms[d] == FRESH_DOM.(counted := true, todo := {e}) && s.round >= 1 && !Live(s, e)
    ensures Reaches(s, ScanSteps(d, e), s')
    ensures s' == SetDom(s.(numDone := s.numDone + 1), d,
                         s.doms[d].(round := s.round, cursorRound := s.round, examined := {e}))
  {
    var s1 := Apply(s, Load(d));
    var s2 := Apply(s1, ExamineDead(d, e));
    s' := Apply(s2, Record(d));
    assert {} + {e} == {e};
    assert s'.doms == s.doms[d := s.doms[d].(round := s.round, cursorRound := s.round, examined := {e})];
    assert Reaches(s2, [Record(d)], s') by { assert [Record(d)][1..] == []; }
    assert Reaches(s1, [ExamineDead(d, e), Record(d)], s') by {
      assert [ExamineDead(d, e), Record(d)][1..] == [Record(d)];
    }
    assert ScanSteps(d, e)[1..] == [ExamineDead(d, e), Record(d)];
  }

  /** It is needed before completion too: two domains, nobody marking. The first has
      scanned and recorded when its ephemeron gets a live key; the second then scans and
      records, and the completion test succeeds with the first ephemeron live. */
  lemma SetKeysEarlyCounterexample() returns (s: State, s1: State, s': State)
    ensures Init(s) && Reaches(s, ScanSteps(0, 0), s1) && !Complete(s1) && 0 in s1.ephe
    ensures forall d :: d in s1.doms ==> s1.doms[d].marking != Marking
    ensures Reaches(SetKeysStep(s1, 0, {1}), ScanSteps(1, 1), s')
    ensures Complete(s') && !NoLiveTodo(s')
  {
    var dom := FRESH_DOM.(counted := true);
    var ephe := map[0 := Ephemeron(1, {2}, {3}), 1 := Ephemeron(1, {2}, {3})];
    s := State(ephe, {1}, 1, 0, 2, 0, map[0 := dom.(todo := {0}), 1 := dom.(todo := {1})]);
    assert s.doms.Keys == {0, 1};
    assert Busy(s) == {};
    s1 := ScanRun(s, 0, 0);
    s' := ScanRun(SetKeysStep(s1, 0, {1}), 1, 1);
    assert 0 in s'.doms[0].todo && Live(s', 0);
  }
}
