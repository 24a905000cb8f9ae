/**
  The wait-free look-up of the lock-free skip list (`runtime/lf_skiplist.c`): it walks past
  marked cells without unlinking them, while any number of threads insert and remove.
  A reader changes nothing, so that one reader among the steps of the list stands for any
  number of them.
 */
module LockFreeLookup {

  import opened Common
  import opened LockFreeList

  /** lf_skiplist_lookup: coming down to the bottom level at `pred`; about to load the link
      of `curr`; returned. */
  datatype Reader =
    | Descend(k: nat, pred: Node)
    | Walk(k: nat, pred: Node, curr: Node)
    | Answer(k: nat, pred: Node, curr: Node)

  datatype World = World(s: State, r: Reader)

  datatype Event =
    | Other(st: Step)
    | EnterAt(start: Node)  // seen unmarked on an upper level
    | LoadPred
    | LoadLink

  predicate CanHappen(w: World, e: Event) {
    match e
    case Other(st) => Enabled(w.s, st)
    case EnterAt(start) =>
      && w.r.Descend? && w.r.pred == HEAD && start != HEAD
      && Unmarked(w.s.m, start) && KeyOf(w.s.m, start) < w.r.k
    case LoadPred => w.r.Descend?
    case LoadLink => w.r.Walk?
  }

  function After(w: World, e: Event): World
    requires CanHappen(w, e)
  {
    match e
    case Other(st) => w.(s := Apply(w.s, st))
    case EnterAt(start) => w.(r := Descend(w.r.k, start))
    case LoadPred => w.(r := Walk(w.r.k, w.r.pred, NextOf(w.s.m, w.r.pred).succ))
    case LoadLink =>
      var next := NextOf(w.s.m, w.r.curr);
      w.(r := if next.marked then Walk(w.r.k, w.r.pred, next.succ)
              else if KeyOf(w.s.m, w.r.curr) < w.r.k then Walk(w.r.k, w.r.curr, next.succ)
              else Answer(w.r.k, w.r.pred, w.r.curr))
  }

  ghost predicate Leads(w: World, events: seq<Event>, w': World)
    decreases |events|
  {
    if events == [] then w == w'
    else CanHappen(w, events[0]) && Leads(After(w, events[0]), events[1..], w')
  }

  /** The keys of the list at every moment of a run, its two ends included. */
  ghost function History(w: World, events: seq<Event>): seq<set<nat>>
    decreases |events|
  {
    [Contents(w.s.m)]
    + if events == [] || !CanHappen(w, events[0]) then [] else History(After(w, events[0]), events[1..])
  }

  /** A call for key `k` begins. */
  function Start(s: State, k: nat): World {
    World(s, Descend(k, HEAD))
  }

  // ------------------------------------------------------------- marked links

  /** Marked links lead along `path` to a cell that is not marked. */
  ghost predicate MarkedPath(m: Mem, path: seq<Node>) {
    && path != [] && Unmarked(m, path[|path| - 1])
    && forall i :: 0 <= i < |path| - 1 ==> path[i] in m.linked && NextOf(m, path[i]) == Link(path[i + 1], true)
  }

  lemma PathHead(m: Mem, path: seq<Node>)
    requires MarkedPath(m, path)
    ensures |path| > 1 <==> NextOf(m, path[0]).marked
  {
    assert |path| > 1 ==> path[0] in m.linked && NextOf(m, path[0]) == Link(path[0 + 1], true);
  }

  function End(path: seq<Node>): Node
    requires path != []
  {
    path[|path| - 1]
  }

  /** No key strictly between is in the list. */
  ghost predicate Gap(keys: set<nat>, lo: int, hi: int) {
    forall v: nat :: lo < v < hi ==> v !in keys
  }

  /** From a cell of the chain: the way to the next unmarked one, with no key of the list
      on it. */
  lemma ChainPath(m: Mem, order: seq<Node>, i: nat) returns (b: nat)
    requires LinksOk(m) && ChainOk(m, order) && 0 < i < |order|
    ensures i <= b < |order| && MarkedPath(m, order[i..b + 1]) && End(order[i..b + 1]) == order[b]
    ensures Gap(Contents(m), KeyOf(m, order[i - 1]), KeyOf(m, order[b]))
    ensures KeyOf(m, order[i - 1]) < KeyOf(m, order[b])
  {
    b := FirstUnmarked(m, order, i);
    SlicePath(m, order, i, b);
    ChainIncreasing(m, order, i - 1, b);
    MarkedGap(m, order, i, b);
  }

  lemma SlicePath(m: Mem, order: seq<Node>, i: nat, b: nat)
    requires i <= b < |order| && Unmarked(m, order[b])
    requires forall c :: i <= c < b ==> order[c] in m.linked && NextOf(m, order[c]) == Link(order[c + 1], true)
    ensures MarkedPath(m, order[i..b + 1]) && End(order[i..b + 1]) == order[b]
  {
    var path := order[i..b + 1];
    forall c | 0 <= c < |path| - 1 ensures path[c] in m.linked && NextOf(m, path[c]) == Link(path[c + 1], true) {
      assert path[c] == order[i + c] && path[c + 1] == order[i + c + 1];
    }
  }

  lemma {:induction false} FirstUnmarked(m: Mem, order: seq<Node>, i: nat) returns (b: nat)
    requires LinksOk(m) && ChainOk(m, order) && i < |order|
    ensures i <= b < |order| && !NextOf(m, order[b]).marked
    ensures forall c :: i <= c < b ==> NextOf(m, order[c]).marked
    decreases |order| - i
  {
    b := i;
    if NextOf(m, order[i]).marked {
      b := FirstUnmarked(m, order, i + 1);
    }
  }

  lemma MarkedGap(m: Mem, order: seq<Node>, i: nat, b: nat)
    requires LinksOk(m) && ChainOk(m, order) && 0 < i <= b < |order|
    requires forall c :: i <= c < b ==> NextOf(m, order[c]).marked
    ensures Gap(Contents(m), KeyOf(m, order[i - 1]), KeyOf(m, order[b]))
  {
    forall n | Unmarked(m, n) ensures KeyOf(m, n) <= KeyOf(m, order[i - 1]) || KeyOf(m, order[b]) <= KeyOf(m, n) {
      var c := Listed(m, order, n);
      if c < i - 1 {
        ChainIncreasing(m, order, c, i - 1);
      } else if b < c {
        ChainIncreasing(m, order, b, c);
      }
    }
  }

  lemma Listed(m: Mem, order: seq<Node>, n: Node) returns (i: nat)
    requires ChainOk(m, order) && Unmarked(m, n)
    ensures i < |order| && order[i] == n
  {
    i :| 0 <= i < |order| && order[i] == n;
  }

  /** Behind an unmarked cell: the way to the next one. */
  lemma PathBehind(m: Mem, order: seq<Node>, n: Node) returns (path: seq<Node>)
    requires LinksOk(m) && ChainOk(m, order) && Unmarked(m, n) && n != TAIL
    ensures MarkedPath(m, path) && path[0] == NextOf(m, n).succ
    ensures KeyOf(m, n) < KeyOf(m, End(path)) && Gap(Contents(m), KeyOf(m, n), KeyOf(m, End(path)))
  {
    var i := FindPred(m, order, n);
    var b := ChainPath(m, order, i + 1);
    path := order[i + 1..b + 1];
  }

  // ------------------------------------------------------------------ evidence

  /** The keys above `lo`, one after the other, were out of the list at the moments `times`,
      from `since` on and never going back. */
  ghost predicate Swept(hist: seq<set<nat>>, since: nat, lo: nat, times: seq<nat>) {
    && (forall c :: 0 <= c < |times| ==> since <= times[c] < |hist| && lo + 1 + c !in hist[times[c]])
    && (forall c, d :: 0 <= c < d < |times| ==> times[c] <= times[d])
  }

  lemma SweptOn(hist: seq<set<nat>>, since: nat, lo: nat, times: seq<nat>, hi: nat) returns (times': seq<nat>)
    requires Swept(hist, since, lo, times) && since < |hist| && lo + 1 + |times| <= hi
    requires Gap(hist[|hist| - 1], lo + |times|, hi)
    ensures Swept(hist, since, lo, times') && |times'| == hi - lo - 1
  {
    times' := times + seq(hi - lo - 1 - |times|, _ => |hist| - 1);
  }

  lemma SweptLater(hist: seq<set<nat>>, now: set<nat>, since: nat, lo: nat, times: seq<nat>)
    requires Swept(hist, since, lo, times)
    ensures Swept(hist + [now], since, lo, times)
  {
    forall c | 0 <= c < |times| ensures (hist + [now])[times[c]] == hist[times[c]] {
    }
  }

  ghost predicate PresentOnce(hist: seq<set<nat>>, j: nat) {
    exists i :: 0 <= i < |hist| && j in hist[i]
  }

  ghost predicate AbsentOnce(hist: seq<set<nat>>, j: nat) {
    exists i :: 0 <= i < |hist| && j !in hist[i]
  }

  /** The cell whose link comes next. */
  function Cursor(r: Reader): Node {
    if r.Descend? then r.pred else r.curr
  }

  ghost predicate ReaderOk(m: Mem, r: Reader) {
    && 0 < r.k < UINTNAT_MAX && r.pred in m.linked && KeyOf(m, r.pred) < r.k && Cursor(r) in m.linked
    && (!r.Descend? ==> KeyOf(m, r.pred) < KeyOf(m, r.curr)) && (r.Answer? ==> r.k <= KeyOf(m, r.curr))
  }

  /** What the reader goes by. At the moment `since` its `pred` was in the list. Marked links
      lead it to an unmarked cell, and up to there the keys have been swept. */
  ghost predicate Evidence(w: World, hist: seq<set<nat>>, since: nat, times: seq<nat>, path: seq<Node>) {
    && since < |hist| && hist[|hist| - 1] == Contents(w.s.m) && ReaderOk(w.s.m, w.r)
    && (w.r.pred == HEAD || KeyOf(w.s.m, w.r.pred) in hist[since])
    && Swept(hist, since, KeyOf(w.s.m, w.r.pred), times)
    && if w.r.Answer? then Answered(w, hist, times) else Underway(w, times, path)
  }

  ghost predicate Answered(w: World, hist: seq<set<nat>>, times: seq<nat>) {
    && KeyOf(w.s.m, w.r.pred) + 1 + |times| == KeyOf(w.s.m, Cursor(w.r))
    && (KeyOf(w.s.m, Cursor(w.r)) == w.r.k ==> PresentOnce(hist, w.r.k))
  }

  ghost predicate Underway(w: World, times: seq<nat>, path: seq<Node>) {
    && MarkedPath(w.s.m, path) && path[0] == Cursor(w.r)
    && if End(path) == w.r.pred then times == []
       else KeyOf(w.s.m, w.r.pred) + 1 + |times| == KeyOf(w.s.m, End(path))
  }

  /** A step of the list leaves the marked links; if it marks the cell at their end, the way
      goes on, past keys that are not in the list now. */
  lemma PathKept(s: State, order: seq<Node>, st: Step, path: seq<Node>) returns (path': seq<Node>)
    requires Inv(s, order) && Enabled(s, st) && MarkedPath(s.m, path)
    ensures var m' := Apply(s, st).m;
      && MarkedPath(m', path') && path'[0] == path[0] && KeyOf(m', End(path)) == KeyOf(s.m, End(path))
      && KeyOf(m', End(path)) <= KeyOf(m', End(path'))
      && (End(path') != End(path) ==> KeyOf(m', End(path)) < KeyOf(m', End(path')))
      && Gap(Contents(m'), KeyOf(m', End(path)) - 1, KeyOf(m', End(path')))
  {
    var m' := Apply(s, st).m;
    forall i | 0 <= i < |path| ensures path[i] in m'.linked && KeyOf(m', path[i]) == KeyOf(s.m, path[i]) {
      CellKept(s, order, st, path[i]);
    }
    forall i | 0 <= i < |path| - 1 ensures NextOf(m', path[i]) == Link(path[i + 1], true) {
      CellKept(s, order, st, path[i]);
    }
    path' := path;
    if NextOf(m', End(path)).marked {
      path' := PathExtended(s, order, st, path);
    }
  }

  lemma PathExtended(s: State, order: seq<Node>, st: Step, path: seq<Node>) returns (path': seq<Node>)
    requires Inv(s, order) && Enabled(s, st) && path != [] && Unmarked(s.m, End(path))
    requires NextOf(Apply(s, st).m, End(path)).marked
    requires forall i :: 0 <= i < |path| - 1 ==>
      path[i] in Apply(s, st).m.linked && NextOf(Apply(s, st).m, path[i]) == Link(path[i + 1], true)
    ensures var m' := Apply(s, st).m;
      && MarkedPath(m', path') && path'[0] == path[0]
      && KeyOf(m', End(path)) < KeyOf(m', End(path'))
      && Gap(Contents(m'), KeyOf(m', End(path)) - 1, KeyOf(m', End(path')))
  {
    var m', u := Apply(s, st).m, End(path);
    var i := MarkedOnChain(s, order, st, u);
    var b := ChainPath(m', order, i);
    assert order[i..b + 1][0] == u && b != i;
    ChainIncreasing(m', order, i - 1, i);
    ChainIncreasing(m', order, i, b);
    path' := JoinPaths(m', path, order[i..b + 1]);
  }

  /** A cell that has just been marked is still on the chain. */
  lemma MarkedOnChain(s: State, order: seq<Node>, st: Step, u: Node) returns (i: nat)
    requires Inv(s, order) && Enabled(s, st) && Unmarked(s.m, u) && NextOf(Apply(s, st).m, u).marked
    ensures LinksOk(Apply(s, st).m) && ChainOk(Apply(s, st).m, order) && 0 < i < |order| && order[i] == u
  {
    var order' := StepInv(s, order, st);
    var l := LocalOf(s, st.t);
    assert st.MarkCas? && l.curr == u && LocalOk(s.m, l);
    MarkChain(s.m, order, l.curr, l.succ);
    i := Listed(s.m, order, u);
  }

  lemma JoinPaths(m: Mem, path: seq<Node>, rest: seq<Node>) returns (path': seq<Node>)
    requires path != [] && MarkedPath(m, rest) && rest[0] == End(path)
    requires forall i :: 0 <= i < |path| - 1 ==> path[i] in m.linked && NextOf(m, path[i]) == Link(path[i + 1], true)
    ensures MarkedPath(m, path') && path'[0] == path[0] && End(path') == End(rest)
  {
    var n := |path| - 1;
    path' := path[..n] + rest;
    forall i | 0 <= i < |path'| - 1
      ensures path'[i] in m.linked && NextOf(m, path'[i]) == Link(path'[i + 1], true)
    {
      if i < n {
        assert path'[i] == path[i] && path'[i + 1] == path[i + 1];
      } else {
        assert path'[i] == rest[i - n] && path'[i + 1] == rest[i - n + 1];
      }
    }
  }

  /** Steps of the list. */
  lemma OtherEvidence(w: World, order: seq<Node>, st: Step, hist: seq<set<nat>>, since: nat, times: seq<nat>,
                      path: seq<Node>)
    returns (times': seq<nat>, path': seq<Node>)
    requires Inv(w.s, order) && Enabled(w.s, st) && Evidence(w, hist, since, times, path)
    ensures Evidence(After(w, Other(st)), hist + [Contents(Apply(w.s, st).m)], since, times', path')
  {
    var now := Contents(Apply(w.s, st).m);
    OtherReader(w, order, st);
    SweptLater(hist, now, since, KeyOf(w.s.m, w.r.pred), times);
    assert (hist + [now])[since] == hist[since];
    times', path' := times, path;
    if w.r.Answer? {
      AnsweredLater(w, hist, now, times);
    } else {
      times', path' := UnderwayKept(w, order, st, hist + [now], since, times, path);
    }
  }

  lemma UnderwayKept(w: World, order: seq<Node>, st: Step, hist: seq<set<nat>>, since: nat, times: seq<nat>,
                     path: seq<Node>)
    returns (times': seq<nat>, path': seq<Node>)
    requires Inv(w.s, order) && Enabled(w.s, st) && Underway(w, times, path) && since < |hist|
    requires KeyOf(Apply(w.s, st).m, w.r.pred) == KeyOf(w.s.m, w.r.pred)
    requires Swept(hist, since, KeyOf(w.s.m, w.r.pred), times) && hist[|hist| - 1] == Contents(Apply(w.s, st).m)
    ensures Swept(hist, since, KeyOf(w.s.m, w.r.pred), times') && Underway(After(w, Other(st)), times', path')
  {
    var m', lo := Apply(w.s, st).m, KeyOf(w.s.m, w.r.pred);
    path' := PathKept(w.s, order, st, path);
    times' := times;
    if End(path') != End(path) {
      times' := SweptOn(hist, since, lo, times, KeyOf(m', End(path')));
    }
  }

  lemma OtherReader(w: World, order: seq<Node>, st: Step)
    requires Inv(w.s, order) && Enabled(w.s, st) && ReaderOk(w.s.m, w.r)
    ensures ReaderOk(Apply(w.s, st).m, w.r) && KeyOf(Apply(w.s, st).m, w.r.pred) == KeyOf(w.s.m, w.r.pred)
    ensures KeyOf(Apply(w.s, st).m, Cursor(w.r)) == KeyOf(w.s.m, Cursor(w.r))
  {
    CellKept(w.s, order, st, w.r.pred);
    CellKept(w.s, order, st, Cursor(w.r));
  }

  lemma AnsweredLater(w: World, hist: seq<set<nat>>, now: set<nat>, times: seq<nat>)
    requires Answered(w, hist, times)
    ensures Answered(w, hist + [now], times)
  {
    if KeyOf(w.s.m, Cursor(w.r)) == w.r.k {
      var i :| 0 <= i < |hist| && w.r.k in hist[i];
      assert w.r.k in (hist + [now])[i];
    }
  }

  /** A cell is entered while it is in the list. */
  lemma EnterEvidence(w: World, start: Node, hist: seq<set<nat>>, since: nat, times: seq<nat>, path: seq<Node>)
    requires CanHappen(w, EnterAt(start)) && Evidence(w, hist, since, times, path) && start != TAIL
    ensures Evidence(After(w, EnterAt(start)), hist, |hist| - 1, [], [start])
  {
    assert KeyOf(w.s.m, start) in Contents(w.s.m);
  }

  lemma PredEvidence(w: World, order: seq<Node>, hist: seq<set<nat>>, since: nat, times: seq<nat>, path: seq<Node>)
    returns (times': seq<nat>, path': seq<Node>)
    requires LinksOk(w.s.m) && ChainOk(w.s.m, order) && w.r.Descend? && Evidence(w, hist, since, times, path)
    ensures Evidence(After(w, LoadPred), hist, since, times', path')
  {
    if NextOf(w.s.m, w.r.pred).marked {
      MarkedPredEvidence(w, hist, since, times, path);
      times', path' := times, path[1..];
    } else {
      assert w.r.pred != TAIL;
      path' := PathBehind(w.s.m, order, w.r.pred);
      times' := FreshPredEvidence(w, hist, since, times, path, path');
    }
  }

  lemma MarkedPredEvidence(w: World, hist: seq<set<nat>>, since: nat, times: seq<nat>, path: seq<Node>)
    requires LinksOk(w.s.m) && w.r.Descend? && Evidence(w, hist, since, times, path) && NextOf(w.s.m, w.r.pred).marked
    ensures |path| > 1 && Evidence(After(w, LoadPred), hist, since, times, path[1..])
  {
    var pred := w.r.pred;
    PathHead(w.s.m, path);
    assert pred != TAIL && KeyOf(w.s.m, pred) < KeyOf(w.s.m, NextOf(w.s.m, pred).succ);
    assert path[1..][0] == path[1] == NextOf(w.s.m, pred).succ && End(path[1..]) == End(path);
  }

  lemma FreshPredEvidence(w: World, hist: seq<set<nat>>, since: nat, times: seq<nat>, path: seq<Node>,
                          path': seq<Node>)
    returns (times': seq<nat>)
    requires LinksOk(w.s.m) && w.r.Descend? && Evidence(w, hist, since, times, path)
    requires MarkedPath(w.s.m, path') && path'[0] == NextOf(w.s.m, w.r.pred).succ
    requires var lo, hi := KeyOf(w.s.m, w.r.pred), KeyOf(w.s.m, End(path')); lo < hi && Gap(Contents(w.s.m), lo, hi)
    ensures Evidence(After(w, LoadPred), hist, since, times', path')
  {
    var pred := w.r.pred;
    assert pred != TAIL && KeyOf(w.s.m, pred) < KeyOf(w.s.m, NextOf(w.s.m, pred).succ);
    times' := SweptOn(hist, since, KeyOf(w.s.m, pred), [], KeyOf(w.s.m, End(path')));
  }

  /** Past a marked cell. */
  lemma MarkedEvidence(w: World, hist: seq<set<nat>>, since: nat, times: seq<nat>, path: seq<Node>)
    requires LinksOk(w.s.m) && w.r.Walk? && Evidence(w, hist, since, times, path)
    requires NextOf(w.s.m, w.r.curr).marked
    ensures |path| > 1 && Evidence(After(w, LoadLink), hist, since, times, path[1..])
  {
    var curr := w.r.curr;
    assert curr != TAIL && KeyOf(w.s.m, curr) < KeyOf(w.s.m, NextOf(w.s.m, curr).succ);
    PathHead(w.s.m, path);
    assert path[1..][0] == path[1] == NextOf(w.s.m, curr).succ && End(path[1..]) == End(path);
  }

  /** To a cell below the key. */
  lemma BelowEvidence(w: World, order: seq<Node>, hist: seq<set<nat>>, since: nat, times: seq<nat>, path: seq<Node>)
    returns (times': seq<nat>, path': seq<Node>)
    requires LinksOk(w.s.m) && ChainOk(w.s.m, order) && w.r.Walk? && Evidence(w, hist, since, times, path)
    requires !NextOf(w.s.m, w.r.curr).marked && KeyOf(w.s.m, w.r.curr) < w.r.k
    ensures Evidence(After(w, LoadLink), hist, |hist| - 1, times', path')
  {
    var curr := w.r.curr;
    assert curr != TAIL && curr != HEAD && KeyOf(w.s.m, curr) in Contents(w.s.m);
    assert KeyOf(w.s.m, curr) < KeyOf(w.s.m, NextOf(w.s.m, curr).succ);
    path' := PathBehind(w.s.m, order, curr);
    times' := SweptOn(hist, |hist| - 1, KeyOf(w.s.m, curr), [], KeyOf(w.s.m, End(path')));
  }

  lemma FoundNow(m: Mem, n: Node, hist: seq<set<nat>>)
    requires LinksOk(m) && Unmarked(m, n) && 0 < KeyOf(m, n) < UINTNAT_MAX
    requires hist != [] && hist[|hist| - 1] == Contents(m)
    ensures PresentOnce(hist, KeyOf(m, n))
  {
    assert n != TAIL && n != HEAD && KeyOf(m, n) in hist[|hist| - 1];
  }

  /** To the end. */
  lemma AnswerEvidence(w: World, hist: seq<set<nat>>, since: nat, times: seq<nat>, path: seq<Node>)
    requires LinksOk(w.s.m) && w.r.Walk? && Evidence(w, hist, since, times, path)
    requires !NextOf(w.s.m, w.r.curr).marked && KeyOf(w.s.m, w.r.curr) >= w.r.k
    ensures Evidence(After(w, LoadLink), hist, since, times, path)
  {
    PathHead(w.s.m, path);
    if KeyOf(w.s.m, w.r.curr) == w.r.k {
      FoundNow(w.s.m, w.r.curr, hist);
    }
  }

  /** The moment after an event of the reader is like the one before. */
  lemma Again(w: World, hist: seq<set<nat>>, since: nat, times: seq<nat>, path: seq<Node>)
    requires Evidence(w, hist, since, times, path)
    ensures Evidence(w, hist + [Contents(w.s.m)], since, times, path)
  {
    var now := Contents(w.s.m);
    SweptLater(hist, now, since, KeyOf(w.s.m, w.r.pred), times);
    assert (hist + [now])[since] == hist[since];
    if w.r.Answer? {
      AnsweredLater(w, hist, now, times);
    }
  }

  /** Loading the link of a cell. */
  lemma LinkEvidence(w: World, order: seq<Node>, hist: seq<set<nat>>, since: nat, times: seq<nat>, path: seq<Node>)
    returns (since': nat, times': seq<nat>, path': seq<Node>)
    requires LinksOk(w.s.m) && ChainOk(w.s.m, order) && w.r.Walk? && Evidence(w, hist, since, times, path)
    ensures Evidence(After(w, LoadLink), hist, since', times', path')
  {
    since', times', path' := since, times, path;
    if NextOf(w.s.m, w.r.curr).marked {
      MarkedEvidence(w, hist, since, times, path);
      path' := path[1..];
    } else if KeyOf(w.s.m, w.r.curr) < w.r.k {
      times', path' := BelowEvidence(w, order, hist, since, times, path);
      since' := |hist| - 1;
    } else {
      AnswerEvidence(w, hist, since, times, path);
    }
  }

  /** An event of the reader. */
  lemma OwnEvidence(w: World, order: seq<Node>, e: Event, hist: seq<set<nat>>, since: nat, times: seq<nat>,
                    path: seq<Node>)
    returns (since': nat, times': seq<nat>, path': seq<Node>)
    requires Inv(w.s, order) && CanHappen(w, e) && !e.Other? && Evidence(w, hist, since, times, path)
    ensures Evidence(After(w, e), hist, since', times', path')
  {
    if e.EnterAt? {
      EnterEvidence(w, e.start, hist, since, times, path);
      since', times', path' := |hist| - 1, [], [e.start];
    } else if e.LoadPred? {
      since' := since;
      times', path' := PredEvidence(w, order, hist, since, times, path);
    } else {
      since', times', path' := LinkEvidence(w, order, hist, since, times, path);
    }
  }

  /** One event. */
  lemma EventEvidence(w: World, order: seq<Node>, e: Event, hist: seq<set<nat>>, since: nat, times: seq<nat>,
                      path: seq<Node>)
    returns (order': seq<Node>, since': nat, times': seq<nat>, path': seq<Node>)
    requires Inv(w.s, order) && CanHappen(w, e) && Evidence(w, hist, since, times, path)
    ensures Inv(After(w, e).s, order')
    ensures Evidence(After(w, e), hist + [Contents(After(w, e).s.m)], since', times', path')
  {
    order', since' := order, since;
    if e.Other? {
      order' := StepInv(w.s, order, e.st);
      times', path' := OtherEvidence(w, order, e.st, hist, since, times, path);
    } else {
      since', times', path' := OwnEvidence(w, order, e, hist, since, times, path);
      Again(After(w, e), hist, since', times', path');
    }
  }

  lemma {:induction false} HistoryStep(w: World, events: seq<Event>, past: seq<set<nat>>)
    requires events != [] && CanHappen(w, events[0])
    ensures past + History(w, events) == past + [Contents(w.s.m)] + History(After(w, events[0]), events[1..])
  {
    Associate(past, [Contents(w.s.m)], History(After(w, events[0]), events[1..]));
  }

  lemma {:induction false} RunEvidence(w: World, order: seq<Node>, events: seq<Event>, w': World,
                                       past: seq<set<nat>>, since: nat, times: seq<nat>, path: seq<Node>)
    returns (since': nat, times': seq<nat>, path': seq<Node>)
    requires Inv(w.s, order) && Leads(w, events, w')
    requires Evidence(w, past + [Contents(w.s.m)], since, times, path)
    ensures Evidence(w', past + History(w, events), since', times', path')
    decreases |events|
  {
    if events == [] {
      since', times', path' := since, times, path;
      assert History(w, events) == [Contents(w.s.m)];
    } else {
      var w1, past1 := After(w, events[0]), past + [Contents(w.s.m)];
      var order1, since1, times1, path1 := EventEvidence(w, order, events[0], past1, since, times, path);
      since', times', path' := RunEvidence(w1, order1, events[1..], w', past1, since1, times1, path1);
      HistoryStep(w, events, past);
    }
  }

  // ------------------------------------------------------------- whole look-ups

  /** The answer `pred` and `curr` of a look-up for `k`: at the moment `since` of the call
      `pred` is in the list; from then on the keys between them are out of it, one after the
      other; and if `curr` has the key `k`, it is in the list at some moment. */
  ghost predicate Justified(m: Mem, r: Reader, hist: seq<set<nat>>, since: nat, times: seq<nat>) {
    && since < |hist| && KeyOf(m, r.pred) < r.k <= KeyOf(m, Cursor(r))
    && (r.pred == HEAD || KeyOf(m, r.pred) in hist[since])
    && Swept(hist, since, KeyOf(m, r.pred), times) && KeyOf(m, r.pred) + 1 + |times| == KeyOf(m, Cursor(r))
    && (KeyOf(m, Cursor(r)) == r.k ==> PresentOnce(hist, r.k))
  }

  /** Every answer of a look-up, while other threads do what they like. */
  lemma Lookup(before: seq<Step>, s0: State, k: nat, events: seq<Event>, w: World)
    returns (since: nat, times: seq<nat>)
    requires Reaches(InitState(), before, s0) && 0 < k < UINTNAT_MAX
    requires Leads(Start(s0, k), events, w) && w.r.Answer?
    ensures w.r.k == k && Justified(w.s.m, w.r, History(Start(s0, k), events), since, times)
  {
    InitInv();
    var order, cells := RunInv(InitState(), [HEAD, TAIL], [HEAD], before, s0);
    var w0, hist := Start(s0, k), [Contents(s0.m)];
    assert [] + hist == hist && [] + History(w0, events) == History(w0, events);
    var path;
    since, times, path := RunEvidence(w0, order, events, w, [], 0, [], [HEAD]);
    KeptKey(w0, events, w);
  }

  /** The reader looks for one key throughout. */
  lemma {:induction false} KeptKey(w: World, events: seq<Event>, w': World)
    requires Leads(w, events, w')
    ensures w'.r.k == w.r.k
    decreases |events|
  {
    if events != [] {
      KeptKey(After(w, events[0]), events[1..], w');
    }
  }

  /** caml_lf_skiplist_find: found, at a moment of the call the key is in the list; not
      found, at a moment of the call it is not. */
  lemma Find(before: seq<Step>, s0: State, k: nat, events: seq<Event>, w: World)
    requires Reaches(InitState(), before, s0) && 0 < k < UINTNAT_MAX
    requires Leads(Start(s0, k), events, w) && w.r.Answer?
    ensures var hist := History(Start(s0, k), events);
      if KeyOf(w.s.m, w.r.curr) == k then PresentOnce(hist, k) else AbsentOnce(hist, k)
  {
    var since, times := Lookup(before, s0, k, events, w);
    if KeyOf(w.s.m, w.r.curr) != k {
      var c := k - KeyOf(w.s.m, w.r.pred) - 1;
      assert k !in History(Start(s0, k), events)[times[c]];
    }
  }

  // -------------------------------------------------------------------- wait-freedom

  ghost function OwnSteps(events: seq<Event>): nat {
    if events == [] then 0 else (if events[0].Other? then 0 else 1) + OwnSteps(events[1..])
  }

  /** What is left to do at most. */
  ghost function Left(w: World): nat
    requires ReaderOk(w.s.m, w.r) && KeyOf(w.s.m, Cursor(w.r)) <= UINTNAT_MAX
  {
    match w.r
    case Descend(_, pred) => UINTNAT_MAX + if pred == HEAD then 3 else 2
    case Walk(_, _, curr) => UINTNAT_MAX + 1 - KeyOf(w.s.m, curr)
    case Answer(_, _, _) => 0
  }

  lemma {:induction false} KeyBound(m: Mem, n: Node)
    requires LinksOk(m) && n in m.linked
    ensures KeyOf(m, n) <= UINTNAT_MAX
    decreases m.linked - Below(m, n)
  {
    if n != TAIL {
      var succ := NextOf(m, n).succ;
      assert n in Below(m, succ) && n !in Below(m, n);
      KeyBound(m, succ);
    }
  }

  ghost function Below(m: Mem, n: Node): set<Node> {
    set x | x in m.linked && KeyOf(m, x) < KeyOf(m, n)
  }

  lemma EventLeft(w: World, order: seq<Node>, e: Event) returns (order': seq<Node>)
    requires Inv(w.s, order) && CanHappen(w, e) && ReaderOk(w.s.m, w.r) && KeyOf(w.s.m, Cursor(w.r)) <= UINTNAT_MAX
    ensures var w' := After(w, e);
      && Inv(w'.s, order') && ReaderOk(w'.s.m, w'.r) && KeyOf(w'.s.m, Cursor(w'.r)) <= UINTNAT_MAX
      && Left(w') + (if e.Other? then 0 else 1) <= Left(w)
  {
    order' := order;
    if e.Other? {
      order' := StepInv(w.s, order, e.st);
      OtherReader(w, order, e.st);
    } else {
      var n := Cursor(w.r);
      assert e.EnterAt? || n == TAIL || KeyOf(w.s.m, n) < KeyOf(w.s.m, NextOf(w.s.m, n).succ);
      KeyBound(w.s.m, Cursor(After(w, e).r));
    }
  }

  lemma {:induction false} RunLeft(w: World, order: seq<Node>, events: seq<Event>, w': World)
    requires Inv(w.s, order) && Leads(w, events, w')
    requires ReaderOk(w.s.m, w.r) && KeyOf(w.s.m, Cursor(w.r)) <= UINTNAT_MAX
    ensures OwnSteps(events) <= Left(w)
    decreases |events|
  {
    if events != [] {
      var order' := EventLeft(w, order, events[0]);
      RunLeft(After(w, events[0]), order', events[1..], w');
    }
  }

  /** Whatever the other threads do, a look-up takes a bounded number of steps. */
  lemma WaitFree(before: seq<Step>, s0: State, k: nat, events: seq<Event>, w: World)
    requires Reaches(InitState(), before, s0) && 0 < k < UINTNAT_MAX && Leads(Start(s0, k), events, w)
    ensures OwnSteps(events) <= UINTNAT_MAX + 3
  {
    InitInv();
    var order, cells := RunInv(InitState(), [HEAD, TAIL], [HEAD], before, s0);
    RunLeft(Start(s0, k), order, events, w);
  }

  // -------------------------------------------------------- the largest key below

  /** What caml_lf_skiplist_find_below answers. */
  function BelowAnswer(m: Mem, r: Reader): Option<nat> {
    if KeyOf(m, Cursor(r)) == r.k then Some(r.k) else if r.pred != HEAD then Some(KeyOf(m, r.pred)) else None
  }

  /** It is the largest key up to `k`, or there is none. */
  ghost predicate LargestBelow(keys: set<nat>, k: nat, answer: Option<nat>) {
    match answer
    case None => Gap(keys, 0, k + 1)
    case Some(a) => a in keys && a <= k && Gap(keys, a, k + 1)
  }

  ghost predicate RightOnce(hist: seq<set<nat>>, k: nat, answer: Option<nat>) {
    exists i :: 0 <= i < |hist| && LargestBelow(hist[i], k, answer)
  }

  ghost predicate Inserted(hist: seq<set<nat>>, p: nat, x: nat) {
    p + 1 < |hist| && x !in hist[p] && x in hist[p + 1]
  }

  ghost predicate Removed(hist: seq<set<nat>>, q: nat, y: nat) {
    q + 1 < |hist| && y in hist[q] && y !in hist[q + 1]
  }

  /** A key above `a` is inserted, or `a` itself is removed, and then a larger key, still up
      to `k`, is removed. */
  ghost predicate Disturbed(hist: seq<set<nat>>, a: nat, k: nat) {
    exists p, x, q, y ::
      && p <= q && a <= x < y <= k && Removed(hist, q, y)
      && if x == a then Removed(hist, p, x) else Inserted(hist, p, x)
  }

  lemma {:induction false} RemovedBetween(hist: seq<set<nat>>, y: nat, i: nat, i': nat) returns (q: nat)
    requires i <= i' < |hist| && y in hist[i] && y !in hist[i']
    ensures i <= q < i' && Removed(hist, q, y)
    decreases i' - i
  {
    if y in hist[i + 1] {
      q := RemovedBetween(hist, y, i + 1, i');
    } else {
      q := i;
    }
  }

  lemma Undisturbed(hist: seq<set<nat>>, a: nat, k: nat, p: nat, x: nat, q: nat, y: nat)
    requires !Disturbed(hist, a, k) && p <= q && a <= x < y <= k && Removed(hist, q, y)
    ensures if x == a then !Removed(hist, p, x) else !Inserted(hist, p, x)
  {
  }

  /** Up to a moment: `a`, if it is a key, is still there, and the keys swept by then are out
      of the list. */
  ghost predicate Clear(hist: seq<set<nat>>, a: nat, isKey: bool, k: nat, times: seq<nat>, moment: nat)
    requires moment < |hist|
  {
    && (isKey ==> a in hist[moment])
    && forall c :: 0 <= c < |times| && a + 1 + c <= k && times[c] <= moment ==> a + 1 + c !in hist[moment]
  }

  /** As long as the answer has not been right, a key that is still to be swept is in the
      list; so that a smaller key that came in would disturb the call. */
  lemma ClearNext(hist: seq<set<nat>>, since: nat, a: nat, isKey: bool, k: nat, times: seq<nat>, moment: nat)
    requires Swept(hist, since, a, times) && k <= a + |times| && moment + 1 < |hist| && !Disturbed(hist, a, k)
    requires Clear(hist, a, isKey, k, times, moment) && !Gap(hist[moment], a, k + 1)
    ensures Clear(hist, a, isKey, k, times, moment + 1)
  {
    var y: nat :| a < y < k + 1 && y in hist[moment];
    var c := y - a - 1;
    assert y !in hist[times[c]] && moment < times[c];
    var q := RemovedBetween(hist, y, moment, times[c]);
    Undisturbed(hist, a, k, moment, a, q, y);
    forall d | 0 <= d < |times| && a + 1 + d <= k && times[d] <= moment + 1 ensures a + 1 + d !in hist[moment + 1] {
      if times[d] <= moment {
        assert d < c;
        Undisturbed(hist, a, k, moment, a + 1 + d, q, y);
      }
    }
  }

  lemma {:induction false} ClearUntilRight(hist: seq<set<nat>>, since: nat, a: nat, isKey: bool, k: nat,
                                           times: seq<nat>, i: nat)
    returns (moment: nat)
    requires Swept(hist, since, a, times) && a < k <= a + |times| && i < |hist| && !Disturbed(hist, a, k)
    requires Clear(hist, a, isKey, k, times, i)
    ensures moment < |hist| && (isKey ==> a in hist[moment]) && Gap(hist[moment], a, k + 1)
    decreases |hist| - i
  {
    moment := i;
    if i + 1 < |hist| && !Gap(hist[i], a, k + 1) {
      ClearNext(hist, since, a, isKey, k, times, i);
      moment := ClearUntilRight(hist, since, a, isKey, k, times, i + 1);
    } else if i + 1 == |hist| {
      forall v: nat | a < v < k + 1 ensures v !in hist[i] {
        var c := v - a - 1;
        assert times[c] <= i && a + 1 + c == v;
      }
    }
  }

  /** caml_lf_skiplist_find_below: the answer is right at a moment of the call, unless the
      call is disturbed. */
  lemma FindBelow(before: seq<Step>, s0: State, k: nat, events: seq<Event>, w: World)
    requires Reaches(InitState(), before, s0) && 0 < k < UINTNAT_MAX
    requires Leads(Start(s0, k), events, w) && w.r.Answer?
    ensures var hist := History(Start(s0, k), events);
      !Disturbed(hist, KeyOf(w.s.m, w.r.pred), k) ==> RightOnce(hist, k, BelowAnswer(w.s.m, w.r))
  {
    var hist := History(Start(s0, k), events);
    var since, times := Lookup(before, s0, k, events, w);
    HeadKey(before, s0, k, events, w);
    if !Disturbed(hist, KeyOf(w.s.m, w.r.pred), k) {
      RightBelow(w.s.m, w.r, hist, since, times);
    }
  }

  lemma HeadKey(before: seq<Step>, s0: State, k: nat, events: seq<Event>, w: World)
    requires Reaches(InitState(), before, s0) && Leads(Start(s0, k), events, w)
    ensures KeyOf(w.s.m, HEAD) == 0
  {
    InitInv();
    var order, cells := RunInv(InitState(), [HEAD, TAIL], [HEAD], before, s0);
    EventsKeepHead(Start(s0, k), order, events, w);
  }

  lemma {:induction false} EventsKeepHead(w: World, order: seq<Node>, events: seq<Event>, w': World)
    requires Inv(w.s, order) && Leads(w, events, w')
    ensures KeyOf(w'.s.m, HEAD) == 0
    decreases |events|
  {
    if events != [] {
      var order1 := order;
      if events[0].Other? {
        order1 := StepInv(w.s, order, events[0].st);
      }
      EventsKeepHead(After(w, events[0]), order1, events[1..], w');
    }
  }

  lemma RightBelow(m: Mem, r: Reader, hist: seq<set<nat>>, since: nat, times: seq<nat>)
    requires Justified(m, r, hist, since, times) && !Disturbed(hist, KeyOf(m, r.pred), r.k) && KeyOf(m, HEAD) == 0
    ensures RightOnce(hist, r.k, BelowAnswer(m, r))
  {
    var a, k := KeyOf(m, r.pred), r.k;
    if KeyOf(m, Cursor(r)) == k {
      var i :| 0 <= i < |hist| && k in hist[i];
      assert LargestBelow(hist[i], k, Some(k));
    } else {
      var moment := ClearUntilRight(hist, since, a, r.pred != HEAD, k, times, since);
      assert LargestBelow(hist[moment], k, BelowAnswer(m, r));
    }
  }

  // ------------------------------------------ answers that are right at no moment

  ghost predicate Reached(s: State) {
    exists steps :: Reaches(InitState(), steps, s)
  }

  lemma {:induction false} ReachesMore(s: State, steps: seq<Step>, s': State, st: Step)
    requires Reaches(s, steps, s') && Enabled(s', st)
    ensures Reaches(s, steps + [st], Apply(s', st))
    decreases |steps|
  {
    if steps != [] {
      ReachesMore(Apply(s, steps[0]), steps[1..], s', st);
      assert (steps + [st])[1..] == steps[1..] + [st];
    }
  }

  lemma Onward(s: State, st: Step)
    requires Reached(s) && Enabled(s, st)
    ensures Reached(Apply(s, st))
  {
    var steps :| Reaches(InitState(), steps, s);
    ReachesMore(InitState(), steps, s, st);
  }

  function At(m: Mem, ts: map<Thread, Local>): State {
    State(m, Garbage(map[], HEAD), {}, ts)
  }

  /** Thread `t` begins with key `k`. */
  lemma Starts(m: Mem, ts: map<Thread, Local>, t: Thread, k: nat)
    requires Reached(At(m, ts)) && LocalOf(At(m, ts), t).Idle? && 0 < k < UINTNAT_MAX
    ensures Reached(At(m, ts[t := Look(k, HEAD, NextOf(m, HEAD).succ)]))
  {
    Onward(At(m, ts), Begin(t, k));
    var ts1 := ts[t := Search(k, HEAD)];
    Onward(At(m, ts1), LoadCurr(t));
    assert ts1[t := Look(k, HEAD, NextOf(m, HEAD).succ)] == ts[t := Look(k, HEAD, NextOf(m, HEAD).succ)];
  }

  /** It goes on past `curr`, or has found its place there. */
  lemma Hops(m: Mem, ts: map<Thread, Local>, t: Thread, k: nat, pred: Node, curr: Node)
    requires Reached(At(m, ts[t := Look(k, pred, curr)])) && !NextOf(m, curr).marked
    ensures Reached(At(m, ts[t := if KeyOf(m, curr) < k then Look(k, curr, NextOf(m, curr).succ)
                                  else Found(k, pred, curr)]))
  {
    var l := if KeyOf(m, curr) < k then Look(k, curr, NextOf(m, curr).succ) else Found(k, pred, curr);
    Onward(At(m, ts[t := Look(k, pred, curr)]), LoadNext(t));
    assert ts[t := Look(k, pred, curr)][t := l] == ts[t := l];
  }

  function Built(m: Mem, k: nat, curr: Node, cell: Node): Mem {
    m.(key := m.key[cell := k], next := m.next[cell := Link(curr, false)])
  }

  function Joined(m: Mem, pred: Node, cell: Node): Mem {
    SetLink(m, pred, Link(cell, false)).(linked := m.linked + {cell})
  }

  lemma Builds(m: Mem, ts: map<Thread, Local>, t: Thread, k: nat, pred: Node, curr: Node, cell: Node)
    requires Reached(At(m, ts[t := Found(k, pred, curr)])) && KeyOf(m, curr) != k && cell !in m.key
    ensures Reached(At(Built(m, k, curr, cell), ts[t := Linking(k, pred, curr, cell)]))
  {
    var l := Linking(k, pred, curr, cell);
    Onward(At(m, ts[t := Found(k, pred, curr)]), Build(t, cell));
    assert ts[t := Found(k, pred, curr)][t := l] == ts[t := l];
  }

  lemma Joins(m: Mem, ts: map<Thread, Local>, t: Thread, k: nat, pred: Node, curr: Node, cell: Node)
    requires Reached(At(m, ts[t := Linking(k, pred, curr, cell)])) && NextOf(m, pred) == Link(curr, false)
    ensures Reached(At(Joined(m, pred, cell), ts[t := Idle]))
  {
    var l := Linking(k, pred, curr, cell);
    Onward(At(m, ts[t := l]), LinkCas(t));
    assert ts[t := l][t := Idle] == ts[t := Idle];
  }

  lemma Targets(m: Mem, ts: map<Thread, Local>, t: Thread, k: nat, pred: Node, curr: Node)
    requires Reached(At(m, ts[t := Found(k, pred, curr)])) && KeyOf(m, curr) == k
    ensures Reached(At(m, ts[t := Marking(k, curr, NextOf(m, curr).succ)]))
  {
    var l := Marking(k, curr, NextOf(m, curr).succ);
    Onward(At(m, ts[t := Found(k, pred, curr)]), LoadTarget(t));
    assert ts[t := Found(k, pred, curr)][t := l] == ts[t := l];
  }

  const EMPTY := Mem(map[HEAD := 0, TAIL := UINTNAT_MAX], map[HEAD := Link(TAIL, false)], {HEAD, TAIL}, multiset{})

  /** The list with key `a` in cell 2, and with `y` in cell 3 behind it. */
  function One(a: nat): Mem {
    Joined(Built(EMPTY, a, TAIL, 2), HEAD, 2)
  }

  function Two(a: nat, y: nat): Mem {
    Joined(Built(One(a), y, TAIL, 3), 2, 3)
  }

  lemma ReachesOne(a: nat)
    requires 0 < a < UINTNAT_MAX
    ensures Reached(At(One(a), map[0 := Idle]))
  {
    assert Reaches(InitState(), [], InitState()) && InitState() == At(EMPTY, map[]);
    Starts(EMPTY, map[], 0, a);
    Hops(EMPTY, map[], 0, a, HEAD, TAIL);
    Builds(EMPTY, map[], 0, a, HEAD, TAIL, 2);
    Joins(Built(EMPTY, a, TAIL, 2), map[], 0, a, HEAD, TAIL, 2);
  }

  lemma ReachesTwo(a: nat, y: nat)
    requires 0 < a < y < UINTNAT_MAX
    ensures Reached(At(Two(a, y), map[0 := Idle]))
  {
    ReachesOne(a);
    var m, ts := One(a), map[0 := Idle];
    Starts(m, ts, 0, y);
    Hops(m, ts, 0, y, HEAD, 2);
    Hops(m, ts, 0, y, 2, TAIL);
    Builds(m, ts, 0, y, 2, TAIL, 3);
    Joins(Built(m, y, TAIL, 3), ts, 0, y, 2, TAIL, 3);
    assert ts[0 := Idle] == ts;
  }

  /** Thread 1 about to mark `y`. */
  lemma AimsAtSecond(m: Mem, ts: map<Thread, Local>, a: nat, y: nat)
    requires Reached(At(m, ts)) && 1 !in ts && 0 < a < y < UINTNAT_MAX && NextOf(m, HEAD).succ == 2
    requires NextOf(m, 2) == Link(3, false) && KeyOf(m, 2) == a && NextOf(m, 3) == Link(TAIL, false) && KeyOf(m, 3) == y
    ensures Reached(At(m, ts[1 := Marking(y, 3, TAIL)]))
  {
    Starts(m, ts, 1, y);
    Hops(m, ts, 1, y, HEAD, 2);
    Hops(m, ts, 1, y, 2, 3);
    Targets(m, ts, 1, y, 2, 3);
  }

  /** At no moment of the run is `a` the largest key up to `k`. */
  ghost predicate Spoiled(w: World, events: seq<Event>, w': World, a: nat, k: nat) {
    Leads(w, events, w') && !RightOnce(History(w, events), k, Some(a))
  }

  lemma SpoiledEnd(w: World, a: nat, k: nat)
    requires !LargestBelow(Contents(w.s.m), k, Some(a))
    ensures Spoiled(w, [], w, a, k)
  {
    assert History(w, []) == [Contents(w.s.m)];
  }

  lemma {:induction false} SpoiledBefore(w: World, e: Event, events: seq<Event>, w': World, a: nat, k: nat)
    requires CanHappen(w, e) && Spoiled(After(w, e), events, w', a, k) && !LargestBelow(Contents(w.s.m), k, Some(a))
    ensures Spoiled(w, [e] + events, w', a, k)
  {
    assert ([e] + events)[1..] == events;
    var rest := History(After(w, e), events);
    assert History(w, [e] + events) == [Contents(w.s.m)] + rest;
    forall i | 0 <= i < |rest| + 1 ensures !LargestBelow(([Contents(w.s.m)] + rest)[i], k, Some(a)) {
      if i > 0 {
        assert !LargestBelow(rest[i - 1], k, Some(a));
      }
    }
  }

  lemma KeyAbove(m: Mem, n: Node, a: nat, k: nat)
    requires Unmarked(m, n) && n != HEAD && n != TAIL && a < KeyOf(m, n) <= k
    ensures !LargestBelow(Contents(m), k, Some(a))
  {
    assert KeyOf(m, n) in Contents(m);
  }

  /** The end of the call: cell 3 is found marked, and there is nothing behind it. */
  lemma LookupEnds(s: State, a: nat, k: nat) returns (events: seq<Event>)
    requires NextOf(s.m, 3) == Link(TAIL, true) && NextOf(s.m, TAIL) == Link(TAIL, false)
    requires KeyOf(s.m, TAIL) >= k && !LargestBelow(Contents(s.m), k, Some(a))
    ensures Spoiled(World(s, Walk(k, 2, 3)), events, World(s, Answer(k, 2, TAIL)), a, k)
  {
    var w := World(s, Answer(k, 2, TAIL));
    SpoiledEnd(w, a, k);
    SpoiledBefore(World(s, Walk(k, 2, TAIL)), LoadLink, [], w, a, k);
    SpoiledBefore(World(s, Walk(k, 2, 3)), LoadLink, [LoadLink] + [], w, a, k);
    events := [LoadLink] + ([LoadLink] + []);
  }

  /** Its beginning: up to cell 2, and the link of it. */
  lemma LookupBegins(s: State, a: nat, k: nat, events: seq<Event>, w: World) returns (all: seq<Event>)
    requires NextOf(s.m, HEAD).succ == 2 && NextOf(s.m, 2) == Link(3, false) && KeyOf(s.m, 2) < k
    requires !LargestBelow(Contents(s.m), k, Some(a)) && Spoiled(World(s, Walk(k, 2, 3)), events, w, a, k)
    ensures Spoiled(Start(s, k), all, w, a, k)
  {
    SpoiledBefore(World(s, Walk(k, HEAD, 2)), LoadLink, events, w, a, k);
    SpoiledBefore(Start(s, k), LoadPred, [LoadLink] + events, w, a, k);
    all := [LoadPred] + ([LoadLink] + events);
  }

  /** Two updates after which cell 3 is marked, with `a` wrong before, between and after. */
  ghost predicate Spoiling(s0: State, st1: Step, st2: Step, a: nat, k: nat) {
    && Enabled(s0, st1) && Enabled(Apply(s0, st1), st2)
    && NextOf(s0.m, HEAD).succ == 2 && NextOf(s0.m, 2) == Link(3, false) && KeyOf(s0.m, 2) < k
    && !LargestBelow(Contents(s0.m), k, Some(a)) && !LargestBelow(Contents(Apply(s0, st1).m), k, Some(a))
    && var m := Apply(Apply(s0, st1), st2).m;
    && NextOf(m, 3) == Link(TAIL, true) && NextOf(m, TAIL) == Link(TAIL, false)
    && KeyOf(m, 2) == a && KeyOf(m, TAIL) > k && !LargestBelow(Contents(m), k, Some(a))
  }

  /** A call with the two updates in the middle of it. */
  lemma SpoiledCall(s0: State, st1: Step, st2: Step, a: nat, k: nat) returns (events: seq<Event>, w: World)
    requires Spoiling(s0, st1, st2, a, k)
    ensures Spoiled(Start(s0, k), events, w, a, k) && w.r.Answer? && BelowAnswer(w.s.m, w.r) == Some(a)
  {
    var r, s1 := Walk(k, 2, 3), Apply(s0, st1);
    var s := Apply(s1, st2);
    w := World(s, Answer(k, 2, TAIL));
    events := LookupEnds(s, a, k);
    SpoiledBefore(World(s1, r), Other(st2), events, w, a, k);
    events := [Other(st2)] + events;
    SpoiledBefore(World(s0, r), Other(st1), events, w, a, k);
    events := LookupBegins(s0, a, k, [Other(st1)] + events, w);
  }

  lemma ReachesInsertion(a: nat, x: nat, y: nat) returns (s: State)
    requires 0 < a < x < y < UINTNAT_MAX
    ensures s == At(Built(Two(a, y), x, 3, 4), map[0 := Linking(x, 2, 3, 4)][1 := Marking(y, 3, TAIL)]) && Reached(s)
  {
    ReachesTwo(a, y);
    var m, ts := Two(a, y), map[0 := Idle];
    Starts(m, ts, 0, x);
    Hops(m, ts, 0, x, HEAD, 2);
    Hops(m, ts, 0, x, 2, 3);
    Builds(m, ts, 0, x, 2, 3, 4);
    assert ts[0 := Linking(x, 2, 3, 4)] == map[0 := Linking(x, 2, 3, 4)];
    AimsAtSecond(Built(m, x, 3, 4), map[0 := Linking(x, 2, 3, 4)], a, y);
    s := At(Built(Two(a, y), x, 3, 4), map[0 := Linking(x, 2, 3, 4)][1 := Marking(y, 3, TAIL)]);
  }

  lemma InsertionSpoils(s0: State, a: nat, x: nat, y: nat, k: nat)
    requires 0 < a < x < y <= k < UINTNAT_MAX
    requires s0 == At(Built(Two(a, y), x, 3, 4), map[0 := Linking(x, 2, 3, 4)][1 := Marking(y, 3, TAIL)])
    ensures Spoiling(s0, LinkCas(0), MarkCas(1), a, k)
  {
    var m1, m2 := Apply(s0, LinkCas(0)).m, Apply(Apply(s0, LinkCas(0)), MarkCas(1)).m;
    KeyAbove(s0.m, 3, a, k);
    KeyAbove(m1, 3, a, k);
    KeyAbove(m2, 4, a, k);
  }

  /** caml_lf_skiplist_find_below may give an answer that is right at no moment of the call:
      `a` for `k`, while the list goes from a, y by way of a, x, y to a, x. */
  lemma InsertionCounterexample(a: nat, x: nat, y: nat, k: nat)
    returns (before: seq<Step>, s0: State, events: seq<Event>, w: World)
    requires 0 < a < x < y <= k < UINTNAT_MAX
    ensures Reaches(InitState(), before, s0) && Leads(Start(s0, k), events, w) && w.r.Answer?
    ensures BelowAnswer(w.s.m, w.r) == Some(a) && !RightOnce(History(Start(s0, k), events), k, Some(a))
  {
    s0 := ReachesInsertion(a, x, y);
    before :| Reaches(InitState(), before, s0);
    InsertionSpoils(s0, a, x, y, k);
    events, w := SpoiledCall(s0, LinkCas(0), MarkCas(1), a, k);
  }

  lemma ReachesRemoval(a: nat, y: nat) returns (s: State)
    requires 0 < a < y < UINTNAT_MAX
    ensures s == At(Two(a, y), map[0 := Marking(a, 2, 3)][1 := Marking(y, 3, TAIL)]) && Reached(s)
  {
    ReachesTwo(a, y);
    var m, ts := Two(a, y), map[0 := Idle];
    Starts(m, ts, 0, a);
    Hops(m, ts, 0, a, HEAD, 2);
    Targets(m, ts, 0, a, HEAD, 2);
    assert ts[0 := Marking(a, 2, 3)] == map[0 := Marking(a, 2, 3)];
    AimsAtSecond(m, map[0 := Marking(a, 2, 3)], a, y);
    s := At(Two(a, y), map[0 := Marking(a, 2, 3)][1 := Marking(y, 3, TAIL)]);
  }

  lemma RemovalSpoils(s0: State, a: nat, y: nat, k: nat)
    requires 0 < a < y <= k < UINTNAT_MAX
    requires s0 == At(Two(a, y), map[0 := Marking(a, 2, 3)][1 := Marking(y, 3, TAIL)])
    ensures Spoiling(s0, MarkCas(0), MarkCas(1), a, k)
  {
    var m1, m2 := Apply(s0, MarkCas(0)).m, Apply(Apply(s0, MarkCas(0)), MarkCas(1)).m;
    KeyAbove(s0.m, 3, a, k);
    KeyAbove(m1, 3, a, k);
    assert a !in Contents(m2);
  }

  /** Or while it goes from a, y by way of y to the empty list. */
  lemma RemovalCounterexample(a: nat, y: nat, k: nat)
    returns (before: seq<Step>, s0: State, events: seq<Event>, w: World)
    requires 0 < a < y <= k < UINTNAT_MAX
    ensures Reaches(InitState(), before, s0) && Leads(Start(s0, k), events, w) && w.r.Answer?
    ensures BelowAnswer(w.s.m, w.r) == Some(a) && !RightOnce(History(Start(s0, k), events), k, Some(a))
  {
    s0 := ReachesRemoval(a, y);
    before :| Reaches(InitState(), before, s0);
    RemovalSpoils(s0, a, y, k);
    events, w := SpoiledCall(s0, MarkCas(0), MarkCas(1), a, k);
  }
}
