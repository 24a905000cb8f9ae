/**
  The sense-reversing barrier of stop-the-world sections (`runtime/domain.c`): one
  shared word holds the number of arrivals and, in bit 20, the sense. Participants
  may go through it any number of times back to back, so a fast one can enter the
  next episode while a slow one has not yet seen the last one end.
 */
module Barrier {

  import opened Common

  const BARRIER_SENSE_BIT := 0x100000

  /** `word & BARRIER_SENSE_BIT`, as a multiple of the bit. */
  function Sense(word: nat): nat {
    (word / BARRIER_SENSE_BIT) % 2 * BARRIER_SENSE_BIT
  }

  /** `word & ~BARRIER_SENSE_BIT` */
  function Arrivals(word: nat): nat {
    word - (word / BARRIER_SENSE_BIT) % 2 * BARRIER_SENSE_BIT
  }

  /** `sense ^ BARRIER_SENSE_BIT`, for a sense. */
  function Flipped(sense: nat): nat {
    if sense == 0 then BARRIER_SENSE_BIT else 0
  }

  predicate IsFinal(status: nat, n: nat) {
    Arrivals(status) == n
  }

  /** A participant is outside, having gone through `episode` episodes, or inside its
      next one with the status returned by caml_global_barrier_begin. */
  datatype Participant = Outside(episode: nat) | Inside(episode: nat, status: nat)

  /** `episode` counts the flips; it is read by no step. */
  datatype State = State(word: nat, parts: seq<Participant>, episode: nat)

  datatype Step = Arrive(i: nat) | Flip(i: nat) | Observe(i: nat)

  predicate Enabled(s: State, st: Step) {
    st.i < |s.parts| &&
    match st
    case Arrive(i) => s.parts[i].Outside?
    case Flip(i) => s.parts[i].Inside? && IsFinal(s.parts[i].status, |s.parts|)
    case Observe(i) =>
      && s.parts[i].Inside? && !IsFinal(s.parts[i].status, |s.parts|)
      && Sense(s.word) != Sense(s.parts[i].status)
  }

  function Apply(s: State, st: Step): State
    requires Enabled(s, st)
  {
    match st
    case Arrive(i) =>
      State(s.word + 1, s.parts[i := Inside(s.parts[i].episode, s.word + 1)], s.episode)
    case Flip(i) =>
      State(Flipped(Sense(s.parts[i].status)), s.parts[i := Outside(s.parts[i].episode + 1)], s.episode + 1)
    case Observe(i) =>
      s.(parts := s.parts[i := Outside(s.parts[i].episode + 1)])
  }

  ghost predicate Reaches(s: State, steps: seq<Step>, s': State)
    decreases |steps|
  {
    if steps == [] then s == s'
    else Enabled(s, steps[0]) && Reaches(Apply(s, steps[0]), steps[1..], s')
  }

  ghost predicate Init(s: State) {
    && s.word == 0 && s.episode == 0 && |s.parts| < BARRIER_SENSE_BIT
    && forall i :: 0 <= i < |s.parts| ==> s.parts[i] == Outside(0)
  }

  // -------------------------------------------------------------- invariant

  function EpisodeSense(episode: nat): nat {
    episode % 2 * BARRIER_SENSE_BIT
  }

  /** The participants inside the current episode. */
  ghost function Arrived(s: State): set<nat> {
    set i | 0 <= i < |s.parts| && s.parts[i].Inside? && s.parts[i].episode == s.episode
  }

  /** A slow participant of the episode before. */
  ghost predicate Lagging(s: State, i: nat)
    requires i < |s.parts|
  {
    s.parts[i].Inside? && s.parts[i].episode + 1 == s.episode
  }

  ghost predicate PartOk(s: State, i: nat)
    requires i < |s.parts|
  {
    match s.parts[i]
    case Outside(k) => k == s.episode
    case Inside(k, b) =>
      if k == s.episode then
        EpisodeSense(k) < b <= s.word
      else
        k + 1 == s.episode && EpisodeSense(k) < b < EpisodeSense(k) + |s.parts|
  }

  ghost predicate Inv(s: State) {
    && |s.parts| < BARRIER_SENSE_BIT
    && s.word == EpisodeSense(s.episode) + |Arrived(s)|
    && (forall i :: 0 <= i < |s.parts| ==> PartOk(s, i))
    && (forall i, j :: i in Arrived(s) && j in Arrived(s) && i != j ==> s.parts[i].status != s.parts[j].status)
    && (Arrived(s) != {} ==> exists i :: i in Arrived(s) && s.parts[i].status == s.word)
  }

  ghost function Upto(n: nat): set<nat> {
    if n == 0 then {} else Upto(n - 1) + {n - 1}
  }

  lemma {:induction false} UptoCardinality(n: nat)
    ensures |Upto(n)| == n
    ensures forall i :: i in Upto(n) <==> 0 <= i < n
  {
    if n > 0 {
      UptoCardinality(n - 1);
    }
  }

  lemma ArrivedBound(s: State)
    ensures |Arrived(s)| <= |s.parts|
    ensures |Arrived(s)| == |s.parts| ==> forall i :: 0 <= i < |s.parts| ==> i in Arrived(s)
  {
    UptoCardinality(|s.parts|);
    SubsetCardinality(Arrived(s), Upto(|s.parts|));
  }

  /** Within an episode a status is its sense plus a number of arrivals. */
  lemma StatusParts(episode: nat, count: nat)
    requires count < BARRIER_SENSE_BIT
    ensures Sense(EpisodeSense(episode) + count) == EpisodeSense(episode)
    ensures Arrivals(EpisodeSense(episode) + count) == count
  {
  }

  lemma ArriveInv(s: State, i: nat)
    requires Inv(s) && Enabled(s, Arrive(i))
    ensures Inv(Apply(s, Arrive(i)))
  {
    var s' := Apply(s, Arrive(i));
    assert PartOk(s, i);
    assert Arrived(s') == Arrived(s) + {i};
    assert s'.parts[i].status == s'.word;
    assert forall j :: j in Arrived(s) ==> PartOk(s, j);
    forall j | 0 <= j < |s'.parts| ensures PartOk(s', j) {
      assert PartOk(s, j) && PartOk(s, i);
    }
  }

  /** The final arrival sees everybody inside its own, current episode. */
  lemma FinalMeansAll(s: State, i: nat)
    requires Inv(s) && i < |s.parts| && s.parts[i].Inside? && IsFinal(s.parts[i].status, |s.parts|)
    ensures s.parts[i].episode == s.episode && s.parts[i].status == s.word
    ensures forall j :: 0 <= j < |s.parts| ==> j in Arrived(s)
    ensures |Arrived(s)| == |s.parts|
  {
    ArrivedBound(s);
    assert PartOk(s, i);
    var b := s.parts[i].status;
    StatusParts(s.parts[i].episode, b - EpisodeSense(s.parts[i].episode));
  }

  lemma FlipInv(s: State, i: nat)
    requires Inv(s) && Enabled(s, Flip(i))
    ensures Inv(Apply(s, Flip(i)))
  {
    var s' := Apply(s, Flip(i));
    FinalMeansAll(s, i);
    StatusParts(s.episode, |s.parts|);
    forall j | 0 <= j < |s'.parts| ensures PartOk(s', j) && j !in Arrived(s') {
      assert PartOk(s, j) && j in Arrived(s) && i in Arrived(s);
    }
    assert Arrived(s') == {};
  }

  /** Only a participant of the previous episode can see another sense. */
  lemma ObserveIsLagging(s: State, i: nat)
    requires Inv(s) && Enabled(s, Observe(i))
    ensures Lagging(s, i)
  {
    ArrivedBound(s);
    assert PartOk(s, i);
    StatusParts(s.episode, |Arrived(s)|);
    if s.parts[i].episode == s.episode {
      StatusParts(s.episode, s.parts[i].status - EpisodeSense(s.episode));
    }
  }

  lemma ObserveInv(s: State, i: nat)
    requires Inv(s) && Enabled(s, Observe(i))
    ensures Inv(Apply(s, Observe(i)))
  {
    var s' := Apply(s, Observe(i));
    ObserveIsLagging(s, i);
    assert Arrived(s') == Arrived(s);
    forall j | 0 <= j < |s'.parts| ensures PartOk(s', j) {
      assert PartOk(s, j);
    }
    if Arrived(s) != {} {
      var j :| j in Arrived(s) && s.parts[j].status == s.word;
      assert j in Arrived(s') && s'.parts[j].status == s'.word;
    }
  }

  lemma {:induction false} RunInv(s: State, steps: seq<Step>, s': State)
    requires Inv(s) && Reaches(s, steps, s')
    ensures Inv(s') && |s'.parts| == |s.parts|
    decreases |steps|
  {
    if steps != [] {
      match steps[0] {
        case Arrive(i) => ArriveInv(s, i);
        case Flip(i) => FlipInv(s, i);
        case Observe(i) => ObserveInv(s, i);
      }
      RunInv(Apply(s, steps[0]), steps[1..], s');
    }
  }

  lemma InitInv(s: State)
    requires Init(s)
    ensures Inv(s)
  {
    assert Arrived(s) == {};
  }

  // ---------------------------------------------------------------- results

  /** How many episodes participant `j` has entered. */
  function Entered(p: Participant): nat {
    if p.Outside? then p.episode else p.episode + 1
  }

  /** No participant leaves an episode before all have entered it, over any number of
      episodes and however early fast participants re-enter. */
  lemma NoEarlyLeave(s: State, steps: seq<Step>, s': State, st: Step, j: nat)
    requires Init(s) && Reaches(s, steps, s') && Enabled(s', st) && !st.Arrive? && j < |s'.parts|
    ensures Entered(s'.parts[j]) >= Entered(s'.parts[st.i])
    ensures Apply(s', st).parts[st.i] == Outside(Entered(s'.parts[st.i]))
  {
    InitInv(s);
    RunInv(s, steps, s');
    assert PartOk(s', j);
    if st.Flip? {
      FinalMeansAll(s', st.i);
      assert j in Arrived(s');
    } else {
      ObserveIsLagging(s', st.i);
    }
  }

  ghost function FinalsOf(s: State, episode: nat): set<nat> {
    set i | 0 <= i < |s.parts| && s.parts[i].Inside? && s.parts[i].episode == episode
            && IsFinal(s.parts[i].status, |s.parts|)
  }

  /** At most one arrival of an episode is final, and exactly one once all have arrived. */
  lemma OneFinal(s: State, steps: seq<Step>, s': State, episode: nat)
    requires Init(s) && Reaches(s, steps, s')
    ensures |FinalsOf(s', episode)| <= 1
    ensures |Arrived(s')| == |s'.parts| > 0 ==> |FinalsOf(s', s'.episode)| == 1
  {
    InitInv(s);
    RunInv(s, steps, s');
    ArrivedBound(s');
    var finals := FinalsOf(s', episode);
    forall i | i in finals ensures i in Arrived(s') && s'.parts[i].status == s'.word {
      FinalMeansAll(s', i);
    }
    if i :| i in finals {
      assert finals == {i};
    }
    if |Arrived(s')| == |s'.parts| > 0 {
      var i :| i in Arrived(s') && s'.parts[i].status == s'.word;
      StatusParts(s'.episode, |s'.parts|);
      assert i in FinalsOf(s', s'.episode);
      forall j | j in FinalsOf(s', s'.episode) ensures j == i {
        FinalMeansAll(s', j);
      }
      assert FinalsOf(s', s'.episode) == {i};
    }
  }

  /** The bound on the participants is needed: with 2^20 of them the last arrival
      reads as a sense, and no arrival of the first episode is final. */
  lemma BoundIsTight(b: nat)
    requires 1 <= b <= BARRIER_SENSE_BIT
    ensures !IsFinal(b, BARRIER_SENSE_BIT)
  {
    assert b < BARRIER_SENSE_BIT ==> b / BARRIER_SENSE_BIT == 0;
  }
}
