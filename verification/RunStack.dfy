/**
  The explicit stacks of the runtime's traversals: an entry designates a run of places
  still to be visited, in order, and goes away with the last of them.
 */
module RunStack {

  import opened Common

  /** From the top down; no run is empty. */
  predicate RunsOk<T>(stack: seq<seq<T>>) {
    forall i :: 0 <= i < |stack| ==> stack[i] != []
  }

  /** Everything pending, in the order of the visits. */
  ghost function Flat<T>(stack: seq<seq<T>>): seq<T> {
    if stack == [] then [] else stack[0] + Flat(stack[1..])
  }

  function Push<T>(run: seq<T>, stack: seq<seq<T>>): seq<seq<T>> {
    if |run| > 0 then [run] + stack else stack
  }

  /** The stack without the place on top. */
  function Pop<T>(stack: seq<seq<T>>): seq<seq<T>>
    requires stack != [] && RunsOk(stack)
  {
    Push(stack[0][1..], stack[1..])
  }

  lemma PushFlat<T>(run: seq<T>, stack: seq<seq<T>>)
    requires RunsOk(stack)
    ensures RunsOk(Push(run, stack)) && Flat(Push(run, stack)) == run + Flat(stack)
  {
    if |run| > 0 {
      assert ([run] + stack)[1..] == stack;
    } else {
      assert run + Flat(stack) == Flat(stack);
    }
  }

  lemma PopFlat<T>(stack: seq<seq<T>>)
    requires stack != [] && RunsOk(stack)
    ensures RunsOk(Pop(stack)) && Flat(stack) == [stack[0][0]] + Flat(Pop(stack))
  {
    var run := stack[0];
    PushFlat(run[1..], stack[1..]);
    assert run == [run[0]] + run[1..];
    Associate([run[0]], run[1..], Flat(stack[1..]));
  }

  /** The first place of a run comes next, and the others are pushed. */
  lemma EnterRun<T>(run: seq<T>, stack: seq<seq<T>>)
    requires RunsOk(stack) && run != []
    ensures RunsOk(Push(run[1..], stack)) && [run[0]] + Flat(Push(run[1..], stack)) == run + Flat(stack)
  {
    PushFlat(run[1..], stack);
    assert run == [run[0]] + run[1..];
    Associate([run[0]], run[1..], Flat(stack));
  }

  lemma {:induction false} FlatLength<T>(stack: seq<seq<T>>)
    requires RunsOk(stack)
    ensures |Flat(stack)| >= |stack|
    decreases |stack|
  {
    if stack != [] {
      FlatLength(stack[1..]);
    }
  }
}
