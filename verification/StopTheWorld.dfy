/**
  Stop-the-world sections (`runtime/domain.c`): leader election, interrupt delivery,
  the entry flag, the count of participants still processing, and the creation and
  termination of domains against a running section. Each step is one access to the
  shared state by one domain.
 */
module StopTheWorld {

  import opened Common

  type Domain = nat

  datatype Pc =
    | Absent        // no domain runs in this slot
    | Creating      // domain_create, holding all_domains_lock, before the stw_leader test
    | Initialising  // past the test
    | Running       // mutator code
    | Contending    // caml_try_run_on_all_domains, holding the lock
    | Notifying     // stw_leader claimed, sending interrupts, holding the lock
    | Awaiting      // caml_wait_interrupt_serviced on each participant
    | Spinning      // stw_handler, waiting for domains_still_running to drop
    | Callback      // running the section's callback
    | LastOut       // brought num_domains_still_processing to 0
    | Clearing      // and holds the lock to reset stw_leader
    | Terminating   // domain_terminate, holding the lock

  datatype State = State(
    pc: map<Domain, Pc>,
    lock: Option<Domain>,          // all_domains_lock
    running: set<Domain>,          // stw_domains[0, participating_domains)
    pending: set<Domain>,          // interrupt_pending
    leader: Option<Domain>,        // stw_leader
    sync: bool,                    // the section in progress is synchronous
    held: bool,                    // stw_request.domains_still_running
    processing: int,               // stw_request.num_domains_still_processing
    participants: set<Domain>,     // stw_request.participating
    inside: set<Domain>,           // the participants that have not left yet
    toNotify: set<Domain>,         // the leader's loop over the interrupts to send
    toAwait: set<Domain>)          // the leader's loop over the interrupts to be serviced

  function PcOf(s: State, d: Domain): Pc {
    if d in s.pc then s.pc[d] else Absent
  }

  function Goto(s: State, d: Domain, pc: Pc): State {
    s.(pc := s.pc[d := pc])
  }

  predicate Holding(pc: Pc) {
    pc in {Creating, Initialising, Contending, Notifying, Clearing, Terminating}
  }

  // ------------------------------------------------------------------ steps

  datatype Step =
    | CreateLock(d: Domain)     // take the lock in domain_create
    | CreateWait(d: Domain)     // a section is running: wait on the condition, releasing the lock
    | CreateGo(d: Domain)
    | CreateFail(d: Domain)
    | CreateDone(d: Domain)     // add_next_to_stw_domains, unlock
    | TryLock(d: Domain)
    | BackOff(d: Domain)        // there is a leader already
    | Claim(d: Domain, sync: bool)
    | Notify(d: Domain, p: Domain)
    | Unlock(d: Domain)
    | Await(d: Domain, p: Domain)
    | Release(d: Domain)        // domains_still_running := 0
    | Serve(d: Domain)          // handle_incoming: clear interrupt_pending, enter stw_handler
    | Enter(d: Domain)          // the entry flag is seen down
    | Leave(d: Domain)          // decrement_stw_domains_still_processing
    | LastLock(d: Domain)
    | LastClear(d: Domain)      // stw_leader := 0, unlock
    | TermLock(d: Domain)
    | TermBack(d: Domain)       // an interrupt is queued: go round again
    | TermGo(d: Domain)         // remove_from_stw_domains, unlock

  predicate Enabled(s: State, st: Step) {
    var pc := PcOf(s, st.d);
    match st
    case CreateLock(_) => pc == Absent && s.lock.None?
    case CreateWait(_) => pc == Creating && s.leader.Some?
    case CreateGo(_) => pc == Creating && s.leader.None?
    case CreateFail(_) => pc == Initialising
    case CreateDone(_) => pc == Initialising
    case TryLock(_) => pc == Running && s.lock.None?
    case BackOff(_) => pc == Contending && s.leader.Some?
    case Claim(_, _) => pc == Contending && s.leader.None?
    case Notify(_, p) => pc == Notifying && p in s.toNotify
    case Unlock(_) => pc == Notifying && s.toNotify == {}
    case Await(_, p) => pc == Awaiting && p in s.toAwait && p !in s.pending
    case Release(_) => pc == Awaiting && s.toAwait == {}
    case Serve(d) => pc == Running && d in s.pending
    case Enter(_) => pc == Spinning && !s.held
    case Leave(_) => pc == Callback
    case LastLock(_) => pc == LastOut && s.lock.None?
    case LastClear(_) => pc == Clearing
    case TermLock(_) => pc == Running && s.lock.None?
    case TermBack(d) => pc == Terminating && d in s.pending
    case TermGo(d) => pc == Terminating && d !in s.pending
  }

  function Apply(s: State, st: Step): State
    requires Enabled(s, st)
  {
    match st
    case CreateLock(d) => Goto(s, d, Creating).(lock := Some(d))
    case CreateWait(d) => Goto(s, d, Absent).(lock := None)
    case CreateGo(d) => Goto(s, d, Initialising)
    case CreateFail(d) => Goto(s, d, Absent).(lock := None)
    case CreateDone(d) => Goto(s, d, Running).(lock := None, running := s.running + {d})
    case TryLock(d) => Goto(s, d, Contending).(lock := Some(d))
    case BackOff(d) => Goto(s, d, Running).(lock := None)
    case Claim(d, sync) =>
      Goto(s, d, Notifying).(
        leader := Some(d), sync := sync, held := sync,
        processing := |s.running|, participants := s.running, inside := s.running,
        toNotify := s.running - {d}, toAwait := s.running)
    case Notify(_, p) => s.(pending := s.pending + {p}, toNotify := s.toNotify - {p})
    case Unlock(d) => Goto(s, d, Awaiting).(lock := None)
    case Await(_, p) => s.(toAwait := s.toAwait - {p})
    case Release(d) => Goto(s, d, Callback).(held := false)
    case Serve(d) => Goto(s, d, Spinning).(pending := s.pending - {d})
    case Enter(d) => Goto(s, d, Callback)
    case Leave(d) =>
      Goto(s, d, if s.processing == 1 then LastOut else Running).(
        processing := s.processing - 1, inside := s.inside - {d})
    case LastLock(d) => Goto(s, d, Clearing).(lock := Some(d))
    case LastClear(d) => Goto(s, d, Running).(lock := None, leader := None)
    case TermLock(d) => Goto(s, d, Terminating).(lock := Some(d))
    case TermBack(d) => Goto(s, d, Running).(lock := None)
    case TermGo(d) => Goto(s, d, Absent).(lock := None, running := s.running - {d})
  }

  ghost predicate Reaches(s: State, steps: seq<Step>, s': State)
    decreases |steps|
  {
    if steps == [] then s == s'
    else Enabled(s, steps[0]) && Reaches(Apply(s, steps[0]), steps[1..], s')
  }

  /** One running domain, no section in progress. */
  ghost predicate Init(s: State) {
    exists d :: s == State(map[d := Running], None, {d}, {}, None, false, false, 0, {}, {}, {}, {})
  }

  // -------------------------------------------------------------- invariant

  ghost predicate LockOk(s: State) {
    forall d: Domain :: Holding(PcOf(s, d)) <==> s.lock == Some(d)
  }

  ghost predicate RunningOk(s: State) {
    && (forall d :: d in s.running <==> PcOf(s, d) !in {Absent, Creating, Initialising})
    && (forall d :: PcOf(s, d) == Initialising ==> s.leader.None?)
  }

  /** Nothing of a section outlives it. */
  ghost predicate IdleOk(s: State) {
    s.leader.None? ==>
      && s.inside == {} && s.pending == {}
      && forall d :: PcOf(s, d) !in {Notifying, Awaiting, Spinning, Callback, LastOut, Clearing}
  }

  /** Where participant `p` of the section led by `l` stands until it leaves. */
  ghost predicate MemberOk(s: State, l: Domain, p: Domain) {
    if p in s.inside then
      && p in s.running
      && (p in s.pending ==> p != l && PcOf(s, p) in {Running, Contending, Terminating})
      && (p in s.toNotify ==> p != l && p !in s.pending && PcOf(s, p) == Running)
      && (p !in s.pending && p !in s.toNotify && p != l ==> PcOf(s, p) in {Spinning, Callback})
      && (p == l ==> PcOf(s, p) in {Notifying, Awaiting, Callback})
    else
      p !in s.pending && p !in s.toNotify
      && PcOf(s, p) !in {Notifying, Awaiting, Spinning, Callback}
  }

  /** How far the leader is, as the shared variables tell. */
  ghost predicate LeaderOk(s: State, l: Domain) {
    && (PcOf(s, l) == Notifying || s.toNotify == {})
    && (s.held ==> s.sync && PcOf(s, l) in {Notifying, Awaiting})
    && (PcOf(s, l) in {Notifying, Awaiting} ==>
          && s.held == s.sync
          && (forall p :: p in s.participants && p !in s.toAwait ==> p !in s.pending && p !in s.toNotify))
    && (PcOf(s, l) !in {Notifying, Awaiting} ==> s.pending == {} && s.toNotify == {})
    && (PcOf(s, l) == Notifying ==> s.toAwait == s.participants)
    && (s.held ==> s.inside == s.participants && forall p :: PcOf(s, p) != Callback)
  }

  ghost predicate SectionOk(s: State) {
    s.leader.Some? ==>
      && s.processing == |s.inside| && s.inside <= s.participants && s.running <= s.participants
      && (forall p :: MemberOk(s, s.leader.value, p))
      && LeaderOk(s, s.leader.value)
  }

  /** The section ends through exactly one domain. */
  ghost predicate LastOk(s: State) {
    && (forall d :: PcOf(s, d) in {LastOut, Clearing} ==> s.inside == {})
    && (forall d, e :: PcOf(s, d) in {LastOut, Clearing} && PcOf(s, e) in {LastOut, Clearing} ==> d == e)
    && (s.leader.Some? && s.inside == {} ==> exists d :: PcOf(s, d) in {LastOut, Clearing})
  }

  ghost predicate Inv(s: State) {
    LockOk(s) && RunningOk(s) && IdleOk(s) && SectionOk(s) && LastOk(s)
  }

  lemma StepLock(s: State, st: Step)
    requires LockOk(s) && Enabled(s, st)
    ensures LockOk(Apply(s, st))
  {
  }

  lemma StepRunning(s: State, st: Step)
    requires LockOk(s) && RunningOk(s) && Enabled(s, st)
    ensures RunningOk(Apply(s, st))
  {
  }

  /** A step moves no domain but its own. */
  lemma OthersStay(s: State, st: Step)
    requires Enabled(s, st)
    ensures forall p :: PcOf(Apply(s, st), p) == if p == st.d then PcOf(Apply(s, st), p) else PcOf(s, p)
  {
  }

  lemma StepIdle(s: State, st: Step)
    requires Inv(s) && Enabled(s, st)
    ensures IdleOk(Apply(s, st))
  {
    var s' := Apply(s, st);
    OthersStay(s, st);
    assert s.leader.Some? ==> MemberOk(s, s.leader.value, st.d);
    if st.LastClear? {
      forall p
        ensures p !in s'.pending && PcOf(s', p) !in {Notifying, Awaiting, Spinning, Callback, LastOut, Clearing}
      {
        assert MemberOk(s, s.leader.value, p);
      }
    }
  }

  lemma ClaimLast(s: State, d: Domain, sync: bool)
    requires Inv(s) && Enabled(s, Claim(d, sync))
    ensures LastOk(Apply(s, Claim(d, sync)))
  {
    OthersStay(s, Claim(d, sync));
    assert d in Apply(s, Claim(d, sync)).inside;
  }

  lemma LeaveLast(s: State, d: Domain)
    requires Inv(s) && Enabled(s, Leave(d))
    ensures LastOk(Apply(s, Leave(d)))
  {
    var s' := Apply(s, Leave(d));
    OthersStay(s, Leave(d));
    assert s.leader.Some? ==> MemberOk(s, s.leader.value, d);
    assert |s.inside - {d}| == |s.inside| - 1;
    assert s.processing == 1 ==> PcOf(s', d) == LastOut;
  }

  lemma StepLast(s: State, st: Step)
    requires Inv(s) && Enabled(s, st)
    ensures LastOk(Apply(s, st))
  {
    if st.Claim? {
      ClaimLast(s, st.d, st.sync);
    } else if st.Leave? {
      LeaveLast(s, st.d);
    } else {
      var s' := Apply(s, st);
      OthersStay(s, st);
      assert s.leader.Some? ==> MemberOk(s, s.leader.value, st.d);
      if s.leader.Some? && s.inside == {} && !st.LastClear? {
        var e :| PcOf(s, e) in {LastOut, Clearing};
        assert PcOf(s', e) in {LastOut, Clearing};
      }
    }
  }

  lemma ClaimSection(s: State, d: Domain, sync: bool)
    requires Inv(s) && Enabled(s, Claim(d, sync))
    ensures SectionOk(Apply(s, Claim(d, sync)))
  {
    OthersStay(s, Claim(d, sync));
  }

  lemma QuietSection(s: State, st: Step)
    requires Inv(s) && Enabled(s, st) && !st.Claim? && !st.Leave?
    requires !st.Release? && !st.Await? && !st.Notify? && !st.Unlock?
    ensures SectionOk(Apply(s, st))
  {
    var s' := Apply(s, st);
    OthersStay(s, st);
    if s'.leader.Some? {
      var l := s.leader.value;
      assert MemberOk(s, l, st.d);
      forall p ensures MemberOk(s', l, p) {
        assert MemberOk(s, l, p);
      }
    }
  }

  lemma LeaderSection(s: State, st: Step)
    requires Inv(s) && Enabled(s, st) && (st.Leave? || st.Release? || st.Await? || st.Notify? || st.Unlock?)
    ensures SectionOk(Apply(s, st))
  {
    var s' := Apply(s, st);
    OthersStay(s, st);
    var l := s.leader.value;
    assert MemberOk(s, l, st.d);
    forall p ensures MemberOk(s', l, p) {
      assert MemberOk(s, l, p);
    }
    if st.Release? {
      forall p ensures p !in s'.pending {
        assert MemberOk(s, l, p);
      }
    }
  }

  lemma StepInv(s: State, st: Step)
    requires Inv(s) && Enabled(s, st)
    ensures Inv(Apply(s, st))
  {
    StepLock(s, st);
    StepRunning(s, st);
    StepIdle(s, st);
    StepLast(s, st);
    if st.Claim? {
      ClaimSection(s, st.d, st.sync);
    } else if st.Leave? || st.Release? || st.Await? || st.Notify? || st.Unlock? {
      LeaderSection(s, st);
    } else {
      QuietSection(s, st);
    }
  }

  lemma {:induction false} RunInv(s: State, steps: seq<Step>, s': State)
    requires Inv(s) && Reaches(s, steps, s')
    ensures Inv(s')
    decreases |steps|
  {
    if steps != [] {
      StepInv(s, steps[0]);
      RunInv(Apply(s, steps[0]), steps[1..], s');
    }
  }

  ghost predicate Reachable(s: State) {
    exists s0, steps :: Init(s0) && Reaches(s0, steps, s)
  }

  lemma ReachableInv(s: State)
    requires Reachable(s)
    ensures Inv(s)
  {
    var s0, steps :| Init(s0) && Reaches(s0, steps, s);
    RunInv(s0, steps, s);
  }

  // ---------------------------------------------------------------- results

  /** When a synchronous section's entry flag drops, every snapshotted participant
      is inside the handler with its interrupt cleared, and none has left. */
  lemma EntryBarrier(s: State, l: Domain, p: Domain)
    requires Reachable(s) && Enabled(s, Release(l)) && s.sync
    requires p in s.participants
    ensures p !in s.pending && p in s.inside
    ensures PcOf(Apply(s, Release(l)), p) == if p == l then Callback else Spinning
  {
    ReachableInv(s);
    assert MemberOk(s, s.leader.value, l);
    assert MemberOk(s, s.leader.value, p);
  }

  /** Exclusion: while a synchronous section runs its callback, every running domain
      is one of its participants, and each is in the handler unless it has left; so
      before the first one leaves no mutator runs at all. */
  lemma Exclusion(s: State, c: Domain, d: Domain)
    requires Reachable(s) && s.sync && PcOf(s, c) == Callback && d in s.running
    ensures d in s.participants
    ensures d in s.inside <==> PcOf(s, d) in {Spinning, Callback}
    ensures d in s.inside || s.processing < |s.participants|
  {
    ReachableInv(s);
    assert MemberOk(s, s.leader.value, c);
    assert MemberOk(s, s.leader.value, d);
    if d !in s.inside {
      SubsetCardinality(s.inside, s.participants - {d});
    }
  }

  /** No domain joins, and no section is claimed, before the last participant has
      left; and then none is in the handler and no interrupt is outstanding. */
  lemma NoOverlap(s: State, st: Step)
    requires Reachable(s) && Enabled(s, st) && (st.CreateDone? || st.Claim?)
    ensures s.inside == {} && s.pending == {}
    ensures forall d :: PcOf(s, d) !in {Notifying, Awaiting, Spinning, Callback}
    ensures st.Claim? ==> Apply(s, st).participants == s.running && Apply(s, st).processing == |s.running|
  {
    ReachableInv(s);
  }

  /** A domain that has been interrupted cannot terminate before taking part. */
  lemma NoEarlyExit(s: State, d: Domain)
    requires Reachable(s) && Enabled(s, TermGo(d))
    ensures d !in s.inside
  {
    ReachableInv(s);
    if s.leader.Some? {
      assert MemberOk(s, s.leader.value, d);
    }
  }

  // ------------------------------------------------------------- sections end

  /** What is left of a section, the most significant part first: interrupts to send,
      interrupts to be served and waited for, domains to enter, to leave, and the end. */
  datatype Rank = Rank(
    notify: nat, notifying: nat, pending: nat, await: nat, awaiting: nat,
    outside: nat, inside: nat, end: nat, other: nat)

  function Bit(b: bool): nat {
    if b then 1 else 0
  }

  /** The participants that have not left and are not in the callback either. */
  function Outside(s: State): set<Domain> {
    set p | p in s.inside && PcOf(s, p) != Callback
  }

  /** The lock is held by a domain with other business. */
  predicate Busy(s: State) {
    s.lock.Some? && PcOf(s, s.lock.value) in {Creating, Initialising, Contending, Terminating}
  }

  ghost function RankOf(s: State, l: Domain): Rank {
    Rank(|s.toNotify|, Bit(PcOf(s, l) == Notifying), |s.pending|, |s.toAwait|, Bit(PcOf(s, l) == Awaiting),
         |Outside(s)|, |s.inside|, Bit(exists d :: PcOf(s, d) == LastOut), Bit(Busy(s)))
  }

  predicate Lower(r: Rank, q: Rank) {
    r.notify < q.notify || (r.notify == q.notify && (
    r.notifying < q.notifying || (r.notifying == q.notifying && (
    r.pending < q.pending || (r.pending == q.pending && (
    r.await < q.await || (r.await == q.await && (
    r.awaiting < q.awaiting || (r.awaiting == q.awaiting && LowerEnd(r, q))))))))))
  }

  predicate LowerEnd(r: Rank, q: Rank) {
    r.outside < q.outside || (r.outside == q.outside && (
    r.inside < q.inside || (r.inside == q.inside && (
    r.end < q.end || (r.end == q.end && r.other < q.other)))))
  }

  /** A domain with other business gives the lock back and changes nothing else. */
  lemma BusyStep(s: State, l: Domain) returns (st: Step)
    requires Inv(s) && s.leader == Some(l) && Busy(s)
    ensures Enabled(s, st) && Apply(s, st).leader == Some(l) && Lower(RankOf(Apply(s, st), l), RankOf(s, l))
  {
    var d := s.lock.value;
    match PcOf(s, d) {
      case Creating => st := CreateWait(d);
      case Contending => st := BackOff(d);
      case Terminating => st := if d in s.pending then TermBack(d) else TermGo(d);
      case Initialising => assert false;
    }
    assert MemberOk(s, l, d);
    OthersStay(s, st);
    assert Outside(Apply(s, st)) == Outside(s);
  }

  /** The leader sends its interrupts, and waits until they are served. */
  lemma LeaderStep(s: State, l: Domain) returns (st: Step)
    requires Inv(s) && s.leader == Some(l) && !Busy(s) && PcOf(s, l) in {Notifying, Awaiting}
    ensures Enabled(s, st) && Apply(s, st).leader == Some(l) && Lower(RankOf(Apply(s, st), l), RankOf(s, l))
  {
    if PcOf(s, l) == Notifying {
      if p :| p in s.toNotify {
        st := Notify(l, p);
      } else {
        st := Unlock(l);
      }
    } else if p :| p in s.toAwait && p in s.pending {
      assert MemberOk(s, l, p) && (Holding(PcOf(s, p)) <==> s.lock == Some(p));
      st := Serve(p);
    } else if p :| p in s.toAwait {
      st := Await(l, p);
    } else {
      st := Release(l);
    }
  }

  lemma LeaveStep(s: State, l: Domain, p: Domain)
    requires Inv(s) && s.leader == Some(l) && p in s.inside && PcOf(s, p) == Callback
    requires PcOf(s, l) !in {Notifying, Awaiting}
    ensures Apply(s, Leave(p)).leader == Some(l) && Lower(RankOf(Apply(s, Leave(p)), l), RankOf(s, l))
  {
    OthersStay(s, Leave(p));
    assert Outside(Apply(s, Leave(p))) == Outside(s);
    assert s.inside == Apply(s, Leave(p)).inside + {p};
  }

  lemma EnterStep(s: State, l: Domain, p: Domain)
    requires Inv(s) && s.leader == Some(l) && p in s.inside && Enabled(s, Enter(p))
    requires PcOf(s, l) !in {Notifying, Awaiting}
    ensures Apply(s, Enter(p)).leader == Some(l) && Lower(RankOf(Apply(s, Enter(p)), l), RankOf(s, l))
  {
    OthersStay(s, Enter(p));
    var out := Outside(Apply(s, Enter(p)));
    assert Outside(s) == out + {p} && p !in out;
  }

  /** Then the participants enter the callback and leave it. */
  lemma ParticipantStep(s: State, l: Domain) returns (st: Step)
    requires Inv(s) && s.leader == Some(l) && PcOf(s, l) !in {Notifying, Awaiting} && s.inside != {}
    ensures Enabled(s, st) && Apply(s, st).leader == Some(l) && Lower(RankOf(Apply(s, st), l), RankOf(s, l))
  {
    var p :| p in s.inside;
    assert MemberOk(s, l, p) && MemberOk(s, l, l);
    if PcOf(s, p) == Callback {
      st := Leave(p);
      LeaveStep(s, l, p);
    } else {
      st := Enter(p);
      EnterStep(s, l, p);
    }
  }

  /** And the last one out resets the leader. */
  lemma LastStep(s: State, l: Domain) returns (st: Step)
    requires Inv(s) && s.leader == Some(l) && !Busy(s) && PcOf(s, l) !in {Notifying, Awaiting} && s.inside == {}
    ensures Enabled(s, st)
    ensures Apply(s, st).leader == None ||
            (Apply(s, st).leader == Some(l) && Lower(RankOf(Apply(s, st), l), RankOf(s, l)))
  {
    var d :| PcOf(s, d) in {LastOut, Clearing};
    if PcOf(s, d) == Clearing {
      st := LastClear(d);
    } else {
      NobodyHolds(s, l, d);
      st := LastLock(d);
      OthersStay(s, st);
      assert Outside(Apply(s, st)) == Outside(s);
    }
  }

  lemma NobodyHolds(s: State, l: Domain, d: Domain)
    requires Inv(s) && s.leader == Some(l) && !Busy(s) && s.inside == {} && PcOf(s, d) == LastOut
    ensures s.lock == None
  {
    assert s.lock.Some? ==> Holding(PcOf(s, s.lock.value)) && MemberOk(s, l, s.lock.value);
  }

  /** A section in progress can always move on towards its end: the protocol does not
      deadlock, and nothing but the domains' own steps is waited for. */
  lemma NoDeadlock(s: State) returns (st: Step)
    requires Inv(s) && s.leader.Some?
    ensures Enabled(s, st)
    ensures Apply(s, st).leader == None ||
            (Apply(s, st).leader == s.leader
             && Lower(RankOf(Apply(s, st), s.leader.value), RankOf(s, s.leader.value)))
  {
    var l := s.leader.value;
    if Busy(s) {
      st := BusyStep(s, l);
    } else if PcOf(s, l) in {Notifying, Awaiting} {
      st := LeaderStep(s, l);
    } else if s.inside != {} {
      st := ParticipantStep(s, l);
    } else {
      st := LastStep(s, l);
    }
  }

  /** From every state with a section in progress there is a run that ends it. */
  lemma {:induction false} SectionEnds(s: State, l: Domain, r: Rank) returns (steps: seq<Step>, s': State)
    requires Inv(s) && s.leader == Some(l) && r == RankOf(s, l)
    ensures Reaches(s, steps, s') && s'.leader == None && Inv(s')
    decreases r.notify, r.notifying, r.pending, r.await, r.awaiting, r.outside, r.inside, r.end, r.other
  {
    var st := NoDeadlock(s);
    var s1 := Apply(s, st);
    StepInv(s, st);
    if s1.leader == None {
      steps, s' := [st], s1;
      assert steps[1..] == [];
    } else {
      var rest, end := SectionEnds(s1, l, RankOf(s1, l));
      steps, s' := [st] + rest, end;
      assert steps[1..] == rest;
    }
  }
}
