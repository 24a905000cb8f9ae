# A verified model of the travlang runtime

The C runtime of travlang has a concurrent, incremental garbage collector, domains that
stop each other, one-shot continuations, a marshaller, structural comparison and hashing.
This project models the parts of it whose correctness is hard to see, in Dafny, and proves
what they are for. `dafny verify dfyconfig.toml` checks all of it.

Two kinds of model are used. Code in which several domains take part is a state machine:
a datatype of states, a datatype of steps (each one access to shared memory, under
sequential consistency), and theorems about every finite run of any number of domains.
Code that works alone on loops, arrays and tables is written as methods and classes of the
same form, and proved against functions and predicates that say what it computes.

| module | models | main result |
|---|---|---|
| SnapshotMarking | marking by several domains with mutators at work | whatever was reachable when the cycle began is marked when marking ends |
| EphemeronFixpoint | the counters that detect the end of ephemeron marking | when the completion test succeeds no live ephemeron is left, and the data of all live ones is marked |
| StopTheWorld, Barrier, DomainSlots | stop-the-world sections, the sense-reversing barrier, domain slots | exclusion, no early exit, and every section can end; one final arrival per episode; the slots stay a permutation |
| LockFreeList, LockFreeGarbage, LockFreeLookup | level 0 of the lock-free skip list | the chain is sorted and complete, each cell is removed once, no removed cell is lost, and every operation acts on a set of keys at one moment inside it; the look-up is wait-free |
| MarkStack, AddrMap, Marking | mark stack, compressed mark stack, address map, prefetch ring, mark | compression loses nothing; marking ends and marks exactly what is reachable |
| MarshalFormat, MarshalCompact, MarshalGraph, MarshalStream, MarshalTree, PositionTable, MarshalWriter, MarshalReader | output_value and input_value | every graph reads back isomorphic, in exactly the space announced, without overlap; items are written in the shortest form |
| Fibers | effect handlers: perform, reperform, resume, return, raise | every fiber is in exactly one place; a continuation resumes at most once |
| Doubles, Compare, Hash, HashMixing, HashBudget, HashValues | compare and hash | compare is recursive lexicographic comparison on the numbers and bytes, a total preorder in total mode; equal values hash alike; mixing loses nothing, within the limits on what is seen |
| HexFloat, HexString, HexGrammar, HexPrecision, HexSubnormal | hexadecimal float input and output | which strings are accepted, and which are read as the nearest double; what is printed reads back, rounded to the precision if one is given |
| Bigarray | offsets and views of big arrays | offsets are a bijection; views address the matching cells |
| Finalise, FinaliseCalls, FinaliseAges | finalisers | every registration is in exactly one place and is called at most once, with what it was registered with |

Common, Arithmetic, Bitwise, Probing and RunStack hold what several modules share.

## Where the code does not keep a promise

Eight properties are false of the code as it is. Each has an input on which it fails, and a
condition under which it holds. The condition is exact for one call or state, and for
caml_lf_skiplist_find_below in the sense that every kind of call it shuts out can fail.

- Replacing a key of an ephemeron darkens nothing, so that a live ephemeron can be left
  unmarked by the time the completion test succeeds, or afterwards:
  `EphemeronFixpoint.SetKeysEarlyCounterexample`, `SetKeysCounterexample` and `SetKeysExact`.
- A float array of 2^32 elements or more comes back from marshalling with the bytes of each
  element reversed: `MarshalFormat.RereadCounterexample`, `RereadExact` and
  `MarshalStream.ObjectRoundTripExact`.
- caml_drop_continuation frees the first stack of a chain only; the other fibers of the chain
  are lost: `Fibers.DropCounterexample` and `StepLost`.
- The minor update of finalisers looks at the wrong entry for youth when it partitions, and at
  the right one when it counts. An entry of a live value may be taken out, written past the end
  of the list and lost: `Finalise.MinorUpdateCounterexample` and `MinorConservesExact`. Even
  when the numbers agree, wrong entries may be taken out: `MinorUpdateWrongEntries` and
  `MinorUpdateExact`.
- realloc_mark_stack may leave a full stack full, when all entries are large:
  `MarkStack.ReallocCounterexample`, and `Stack.Realloc` for exactly when.
- caml_lf_skiplist_find_below may answer a key that is at no moment of the call the largest one
  up to the given key: `LockFreeLookup.InsertionCounterexample` and `RemovalCounterexample`, for
  any keys; `FindBelow` says that it takes one of these two disturbances.
- A hexadecimal number with a subnormal value is rounded twice, and may be read as a double that
  is not the nearest: `HexSubnormal.ReadCounterexample` and `ReadExact`.
- A hexadecimal number needs a digit, but one without digits is read as zero when its exponent
  is outside int: `HexGrammar.DigitlessRead` and `Refused`.

## Model

| member | source | states |
|---|---|---|
| `SnapshotMarking.SnapshotMarked` | runtime/major_gc.c:995-1234 | Main theorem. For every run of mark, darken, barrier, allocation, promotion, spawn and exit steps of any number of domains from a cycle start: when `num_domains_to_mark` is 0 and all domains are at safepoints, every block reachable in the starting heap is MARKED |
| `SnapshotMarking.RunInv` | runtime/major_gc.c:939-1234 | The snapshot invariant (roots gray; each pointer of the starting heap still there, or its target gray, or its field still to be scanned) survives every run |
| `SnapshotMarking.StepEdge` | runtime/major_gc.c:995-1125 | No single step, by whichever domain, loses a pointer of the snapshot |
| `SnapshotMarking.StoreEdge` | runtime/memory.c:178-215 | The deletion barrier: overwriting a field darkens what it held, whether the old value is darkened before the store (caml_modify) or after it (caml_array_fill), with writers racing |
| `SnapshotMarking.ContUseEdge` | runtime/fiber.c:598-625 | Resuming a continuation empties it without losing what its stack pointed to, since it has been darkened to its last slot |
| `SnapshotMarking.ContBeginEdge` | runtime/major_gc.c:1180-1206 | Making a continuation NOT_MARKABLE and scanning its stack keeps every pointer of it accounted for |
| `SnapshotMarking.MarkClaimedEdge` | runtime/major_gc.c:939-985 | Storing the MARKED header and pushing the fields keeps every pointer of the block accounted for, even when two domains mark one block |
| `SnapshotMarking.ScanEdge` | runtime/major_gc.c:995-1125 | Scanning a field hands its target to the ring, the stack or a darkening call before the field is forgotten |
| `SnapshotMarking.GrayKept` | runtime/major_gc.c:1208-1234 | A block once gray (marked, in a ring, or the argument of a darkening in progress) stays gray |
| `SnapshotMarking.StepWellFormed` | runtime/major_gc.c:1180-1206 | NOT_MARKABLE is only ever the status of a continuation, and its owner still has its remaining slots to darken |
| `SnapshotMarking.StepCount` | runtime/major_gc.c:1145-1234 | `num_domains_to_mark` always counts the domains that have not declared marking done, across reopening by caml_darken, spawn and exit |
| `SnapshotMarking.Quiescent` | runtime/major_gc.c:1145-1176 | With the counter at 0 and all domains at safepoints, no domain has anything pending or held |
| `SnapshotMarking.QuiescentClosed` | runtime/major_gc.c:1145-1176 | Then the marked blocks contain the roots and are closed under the pointers of the snapshot |
| `SnapshotMarking.InitInv` | runtime/major_gc.c:1509-1532 | The invariant holds when a cycle starts: everything unmarked, the roots handed to caml_darken |
| `EphemeronFixpoint.Fixpoint` | runtime/major_gc.c:1569-1604 | Main theorem. In every run, key replacements that the guard of SetKeysExact admits included, `num_domains_done` is exactly the number of domains with ephemerons left whose recorded round is the current one, an ephemeron that was on a todo list is still on one or has its data marked, and whenever the completion test succeeds no ephemeron left on any todo list is marked with all its keys marked: every live ephemeron then has its data marked |
| `EphemeronFixpoint.RunData` | runtime/major_gc.c:1283-1300 | Over every run an ephemeron leaves the todo lists only with its data marked; marks and data stay |
| `EphemeronFixpoint.StepData` | runtime/major_gc.c:1283-1300 | So does each step |
| `EphemeronFixpoint.CompleteMeansFixpoint` | runtime/major_gc.c:1569-1604 | The invariant and the completion test together leave no live ephemeron to mark |
| `EphemeronFixpoint.RunInv` | runtime/major_gc.c:292-340 | The invariant over the counters, the rounds and the cursors survives every run |
| `EphemeronFixpoint.StepInv` | runtime/major_gc.c:1758-1796 | It survives each atomic counter update, each marked block and each ephemeron examined |
| `EphemeronFixpoint.StepCounters` | runtime/major_gc.c:292-340 | `num_domains_todo`, `num_domains_done` and `num_domains_to_mark` keep counting what they stand for |
| `EphemeronFixpoint.ReopenCounters` | runtime/major_gc.c:1208-1234 | caml_darken on a domain that had finished marking raises the count of marking domains |
| `EphemeronFixpoint.UncountCounters` | runtime/major_gc.c:1145-1176 | Lowering `num_domains_to_mark` as the second of two separate updates keeps the counts |
| `EphemeronFixpoint.AdvanceCounters` | runtime/major_gc.c:292-302 | ephe_next_cycle starts a round and thereby invalidates everything recorded |
| `EphemeronFixpoint.RecordCounters` | runtime/major_gc.c:324-340 | record_ephe_marking_done counts a domain only for the round that is still current |
| `EphemeronFixpoint.EmptiedCounters` | runtime/major_gc.c:304-321 | ephe_todo_list_emptied takes a domain out of the counted ones, and starts a new round in the same critical section |
| `EphemeronFixpoint.StepExamined` | runtime/major_gc.c:1236-1323 | Whatever a cursor has passed in the current round was not live when examined, or some domain is marking since |
| `EphemeronFixpoint.StepDoms` | runtime/major_gc.c:1236-1323 | Rounds of cursors and domains never run ahead of the global round |
| `EphemeronFixpoint.SetKeysExact` | runtime/weak.c:182-213 | In every state of the protocol, replacing keys (a plain store that darkens nothing) keeps the invariant if and only if some domain is still marking, or no scan of the current round has passed the ephemeron, or it is unmarked or gets an unmarked key |
| `EphemeronFixpoint.SetKeysComplete` | runtime/weak.c:182-213 | Once the completion test has succeeded, the same condition decides whether a live ephemeron is left |
| `EphemeronFixpoint.SetKeysCounterexample` | runtime/weak.c:182-213 | A run of one domain after which replacing a key leaves a live ephemeron unmarked although the test has succeeded |
| `EphemeronFixpoint.SetKeysEarlyCounterexample` | runtime/weak.c:182-213 | A run of two domains in which a key is replaced before the test succeeds, with nobody marking: the test then succeeds with a live ephemeron left |
| `StopTheWorld.Exclusion` | runtime/domain.c:1357-1392 | While a synchronous section runs its callback every running domain is one of its participants, and is inside the handler unless some participant has left already |
| `StopTheWorld.EntryBarrier` | runtime/domain.c:1462-1580 | When the entry flag drops, every snapshotted participant is inside the handler with its interrupt cleared, and none has left |
| `StopTheWorld.NoOverlap` | runtime/domain.c:562-571 | No domain joins and no section is claimed before the last participant of the previous one has left; the new section snapshots exactly the running domains |
| `StopTheWorld.NoEarlyExit` | runtime/domain.c:1868-1921 | A terminating domain cannot leave the participant set while it is still due in a section |
| `StopTheWorld.SectionEnds` | runtime/domain.c:1339-1580 | From every reachable state with a section in progress there is a run that ends it |
| `StopTheWorld.NoDeadlock` | runtime/domain.c:1339-1392 | Some step is always enabled that brings the end of the section closer, in a well-founded rank over interrupts, participants and the lock |
| `StopTheWorld.RunInv` | runtime/domain.c:1339-1392 | The protocol invariant survives every run of any number of domains |
| `StopTheWorld.StepInv` | runtime/domain.c:1462-1580 | It survives every single access to the shared state |
| `StopTheWorld.StepLock` | runtime/domain.c:1483-1553 | `all_domains_lock` is held by exactly the domain whose program point says so |
| `StopTheWorld.StepRunning` | runtime/domain.c:255-293 | The participating domains are exactly those between creation and termination |
| `StopTheWorld.StepIdle` | runtime/domain.c:1339-1355 | Without a leader no interrupt, participant or count is left over |
| `StopTheWorld.StepLast` | runtime/domain.c:1339-1355 | The participant that brings the count of processing domains to 0, and no other, goes on to reset the leader |
| `StopTheWorld.ClaimSection` | runtime/domain.c:1496-1512 | Claiming the leader sets up count, participants and interrupts consistently |
| `StopTheWorld.LeaderSection` | runtime/domain.c:1530-1580 | Notifying, waiting, releasing and leaving keep the section consistent |
| `StopTheWorld.QuietSection` | runtime/domain.c:1357-1392 | All other steps keep the section consistent |
| `Barrier.NoEarlyLeave` | runtime/domain.c:1302-1332 | In every run of any number of back-to-back episodes of fewer than 2^20 participants, nobody leaves an episode before all have entered it, however early others re-enter |
| `Barrier.OneFinal` | runtime/domain.c:1302-1311 | At most one arrival of an episode is final, and exactly one once everybody has arrived |
| `Barrier.RunInv` | runtime/domain.c:1302-1332 | The relation between the word, the senses and the episodes survives every run |
| `Barrier.FinalMeansAll` | runtime/domain.c:1308-1311 | The final arrival sees everybody in its own, current episode |
| `Barrier.ObserveIsLagging` | runtime/domain.c:1313-1326 | Only a participant of the previous episode can see another sense |
| `Barrier.FlipInv` | runtime/domain.c:1313-1326 | Flipping the sense and clearing the count starts the next episode |
| `Barrier.ArriveInv` | runtime/domain.c:1302-1306 | An arrival adds one without carrying into the sense bit |
| `Barrier.ObserveInv` | runtime/domain.c:1313-1326 | Leaving after seeing the sense flip keeps the invariant |
| `Barrier.BoundIsTight` | runtime/domain.c:1299-1311 | With 2^20 participants no arrival of an episode is final: the bound is needed |
| `LockFreeList.ListShape` | runtime/lf_skiplist.c:134-236 | In every run of CAS and load steps: the level-0 chain from the head ends at the tail in strictly increasing key order and holds every inserted unmarked cell; each marked cell was removed successfully exactly once; no cell is on the garbage list twice |
| `LockFreeList.MarkedFrozen` | runtime/lf_skiplist.c:425-479 | A marked cell's link never changes again and its removal is never undone, over every continuation of every run |
| `LockFreeList.Dictionary` | runtime/lf_skiplist.c:328-479 | The list refines a set of keys step by step: a successful link adds an absent key, a successful mark removes a present one, nothing else changes it |
| `LockFreeList.Unsuccessful` | runtime/lf_skiplist.c:134-236 | Every operation that changes nothing answers for a moment inside it: a search that ends without the key, or a removal that finds its cell marked by another, for a moment without the key; a search that ends with the key for a moment with it |
| `LockFreeList.EvidenceRun` | runtime/lf_skiplist.c:134-479 | What a search goes by (the predecessor entered, the cell read) is backed by such a moment throughout its run |
| `LockFreeList.PassedOverKept` | runtime/lf_skiplist.c:134-236 | A predecessor marked under way with a link that skips the key was marked at a moment without the key |
| `LockFreeList.StepContents` | runtime/lf_skiplist.c:328-479 | The same for one step from any state that satisfies the invariant |
| `LockFreeList.LinkContents` | runtime/lf_skiplist.c:328-389 | The insertion CAS adds its key, which was absent |
| `LockFreeList.MarkContents` | runtime/lf_skiplist.c:425-479 | The marking CAS removes its key, which was present |
| `LockFreeList.SnipContents` | runtime/lf_skiplist.c:134-236 | Snipping a marked cell out during a search leaves the set of keys alone |
| `LockFreeList.StepInv` | runtime/lf_skiplist.c:134-236 | The invariant on links, chain, keys and every thread's local pointers survives each step |
| `LockFreeList.SnipChain` | runtime/lf_skiplist.c:134-236 | Snipping removes exactly the marked cell from the chain |
| `LockFreeList.LinkChain` | runtime/lf_skiplist.c:328-389 | Linking inserts the cell between its neighbours in the chain |
| `LockFreeList.MarkChain` | runtime/lf_skiplist.c:425-479 | Marking leaves the chain as it is |
| `LockFreeList.StepGarbage` | runtime/lf_skiplist.c:196-214 | The garbage list only grows at its front, and only by the one claimer of a cell that is not on it |
| `LockFreeList.ChainIncreasing` | runtime/lf_skiplist.c:134-236 | Keys strictly increase along the chain |
| `LockFreeList.GapKey` | runtime/lf_skiplist.c:328-389 | A key strictly between two neighbours is not in the list |
| `LockFreeList.RunInv` | runtime/lf_skiplist.c:134-479 | Both invariants survive every run |
| `LockFreeGarbage.NothingLost` | runtime/lf_skiplist.c:162-219 | In every run no inserted cell is lost: it is on the chain, on the garbage list, or in the hands of a thread that is to claim it, has claimed it or is pushing it; when no thread is, every cell is on the chain or on the list |
| `LockFreeGarbage.RunAccounted` | runtime/lf_skiplist.c:162-219 | The invariant behind it survives every run |
| `LockFreeGarbage.StepAccounted` | runtime/lf_skiplist.c:162-219 | And every step |
| `LockFreeGarbage.StepClaims` | runtime/lf_skiplist.c:193-215 | A claimed cell is on the list, or its claimer still has it |
| `LockFreeGarbage.HandsOn` | runtime/lf_skiplist.c:193-215 | Who collects a cell claims it, unless another thread has claimed it before |
| `LockFreeGarbage.OwnerKeeps` | runtime/lf_skiplist.c:199-215 | A claimer that loses the race for the head of the list tries again |
| `LockFreeLookup.Lookup` | runtime/lf_skiplist.c:248-286 | Every answer of the wait-free look-up, whatever the other threads do: its predecessor is in the list at one moment of the call, and from then on the keys between the two cells are out of the list, one after the other, at moments that never go back |
| `LockFreeLookup.Find` | runtime/lf_skiplist.c:290-301 | Found, the key is in the list at a moment of the call; not found, it is out of the list at a moment of the call |
| `LockFreeLookup.WaitFree` | runtime/lf_skiplist.c:248-286 | Whatever the other threads do, a look-up takes a bounded number of its own steps |
| `LockFreeLookup.FindBelow` | runtime/lf_skiplist.c:303-324 | The answer is the largest key up to the given one at some moment of the call, unless a key above the answer is inserted, or the answer is removed, and then a larger key is removed |
| `LockFreeLookup.InsertionCounterexample` | runtime/lf_skiplist.c:303-324 | For any keys a < x < y <= k, a call for k that overlaps with the insertion of x and then the removal of y answers a, which is right at no moment |
| `LockFreeLookup.RemovalCounterexample` | runtime/lf_skiplist.c:303-324 | For any keys a < y <= k, so does a call that overlaps with the removal of a and then of y |
| `LockFreeLookup.PathKept` | runtime/lf_skiplist.c:248-286 | The marked links that the reader follows stay; when the cell at their end is marked, they go on past keys that are not in the list |
| `LockFreeLookup.ChainPath` | runtime/lf_skiplist.c:248-286 | From any cell of the chain marked links lead to the next unmarked cell, with no key of the list between |
| `LockFreeLookup.RunEvidence` | runtime/lf_skiplist.c:248-286 | What the reader goes by holds throughout every run |
| `LockFreeLookup.ClearUntilRight` | runtime/lf_skiplist.c:303-324 | In a call that is not disturbed the sweep over the keys meets a moment at which the answer is right |
| `MarshalFormat.ItemRoundTrip` | runtime/extern.c:558-673 | Every item (int, shared reference, header, string, double, float array) is read back by the reader's decoder as what Reread says, whatever follows, and nothing more is consumed |
| `MarshalFormat.RereadExact` | runtime/intern.c:303-336 | An item comes back as itself if and only if it is not a float array of 2^32 elements or more with some double that does not read the same backwards |
| `MarshalFormat.RereadCounterexample` | runtime/intern.c:303-336 | An array of 2^32 doubles with first byte 1 is read back with last byte 1 |
| `MarshalFormat.IntRoundTrip` | runtime/extern.c:558-576 | Integers of 63 bits in their 1, 2, 3, 5 or 9 byte forms |
| `MarshalFormat.SharedRoundTrip` | runtime/extern.c:580-594 | Back references in 1, 2, 4 and 8 byte forms |
| `MarshalFormat.HeaderRoundTrip` | runtime/extern.c:598-617 | Block headers, small, 32-bit and 64-bit |
| `MarshalFormat.StringRoundTrip` | runtime/extern.c:621-642 | Strings of every length, with their contents |
| `MarshalFormat.DoubleArrayRoundTrip` | runtime/extern.c:654-673 | Float arrays; the 64-bit-count form comes back byte-reversed |
| `MarshalFormat.DoubleRoundTrip` | runtime/extern.c:646-650 | Single doubles |
| `MarshalFormat.BigEndianRoundTrip` | runtime/extern.c:463-477 | store16/32/64 are inverted by the reads |
| `MarshalFormat.StoreSigned` | runtime/intern.c:149-201 | Sign extension inverts the truncating stores on their range |
| `MarshalFormat.StoreUnsigned` | runtime/intern.c:149-201 | So do the unsigned reads |
| `MarshalCompact.ShortestExact` | runtime/extern.c:558-673 | No bytes that the reader takes for the same item are fewer than those written, if and only if the item is not an integer of 32 bits that 31 do not hold |
| `MarshalCompact.NoShorter` | runtime/extern.c:558-673 | The shortest form, for every other item |
| `MarshalCompact.IntForms` | runtime/intern.c:489-623 | What the lengths of the forms of an integer can hold |
| `MarshalCompact.BlockForms` | runtime/intern.c:489-623 | Of a block header |
| `MarshalCompact.StringForms` | runtime/intern.c:489-623 | Of a string |
| `MarshalCompact.ArrayForms` | runtime/intern.c:489-623 | Of a float array |
| `MarshalCompact.MostSignificantFirst` | runtime/extern.c:463-477 | Byte i of k has the weight 256^(k - 1 - i) |
| `MarshalGraph.GraphRoundTrip` | runtime/extern.c:763-910 | For every heap graph, cycles and sharing included, reading the items written for a value rebuilds an isomorphic graph, in exactly the words and object-table entries that the writer counted |
| `MarshalGraph.ExactlyReachable` | runtime/extern.c:763-910 | The objects written are exactly those reachable from the value |
| `MarshalGraph.StepInStep` | runtime/intern.c:443-727 | One turn of the writer and one of the reader stay in step: same numbering, same shapes, every field filled or pending |
| `MarshalGraph.AllocateInStep` | runtime/intern.c:419-441 | A new object joins both sides, its fields pending next |
| `MarshalGraph.FillInStep` | runtime/intern.c:707-720 | Storing the image of the current value serves the current destination and no other |
| `MarshalGraph.WordsHold` | runtime/extern.c:815-823 | The words counted for an object are the fewest words of eight bytes that hold it |
| `MarshalGraph.StringLength` | runtime/intern.c:526-533 | A string with its padding fills the words counted for it, a zero byte follows its bytes, and its length can be told from the last byte |
| `MarshalGraph.StepPlaced` | runtime/intern.c:419-441 | Objects are put one behind the other, headers between them: no two overlap, and all end before the bump pointer |
| `MarshalGraph.DoneIsomorphic` | runtime/intern.c:443-727 | With nothing pending the two sides are isomorphic |
| `MarshalGraph.StepWords` | runtime/intern.c:419-441 | The bump pointer moves by exactly the words that the writer counted |
| `MarshalGraph.StepSmaller` | runtime/extern.c:763-910 | The traversal ends, on cyclic graphs too |
| `MarshalGraph.WriteStepOk` | runtime/extern.c:349-359 | Objects are numbered once each, in the order of their first visit |
| `MarshalStream.MarshalRoundTrip` | runtime/extern.c:763-910 | The graph theorem on bytes: the stream written for any value, followed by anything, reads back as an isomorphic graph (float arrays of 2^32 elements or more byte-reversed), with bump pointer and object table ending exactly where the writer's counters say |
| `MarshalStream.StreamItems` | runtime/intern.c:443-727 | Reading the bytes of items is reading the items |
| `MarshalStream.StreamGrows` | runtime/intern.c:419-441 | Bump pointer and object table only grow, so at no point of a run do they pass their final value |
| `MarshalStream.StreamPlaced` | runtime/intern.c:419-441 | Whatever bytes are read, the objects read from them do not overlap |
| `MarshalStream.ObjectRoundTripExact` | runtime/intern.c:303-336 | The exact condition for an object to come back as itself |
| `MarshalStream.WalkItemsOk` | runtime/extern.c:763-910 | Every item of a traversal fits the format |
| `MarshalStream.ReadItemConsumes` | runtime/intern.c:443-727 | Each item takes at least one byte |
| `MarshalTree.PlainRoundTrip` | runtime/extern.c:763-910 | With NO_SHARING, for every acyclic heap, the bytes read back as a value with the same tree unfolding |
| `MarshalTree.TreeRoundTrip` | runtime/intern.c:443-727 | The bytes of a tree read back as a value that unfolds to it, and no object table is built |
| `MarshalTree.TreeRead` | runtime/intern.c:443-727 | The same on items |
| `MarshalTree.PlainRun` | runtime/intern.c:443-727 | The reader stays in step with the forest still to be read |
| `MarshalTree.PlainStep` | runtime/intern.c:443-727 | One turn of the reader keeps that |
| `MarshalTree.AllocateDenotes` | runtime/intern.c:419-441 | Allocating an object keeps what every slot will unfold to |
| `MarshalTree.FillDenotes` | runtime/intern.c:707-720 | So does storing into the current slot |
| `MarshalTree.RereadForestItems` | runtime/intern.c:303-336 | Reading changes trees only at huge float arrays |
| `MarshalTree.ForestItemsOk` | runtime/extern.c:763-910 | Every item of a tree fits the format |
| `MarshalWriter.Extern.WritePlanned` | runtime/extern.c:773-896 | One value written is one turn of the plan |
| `MarshalWriter.EnterFields` | runtime/extern.c:884-895 | The first field of a block comes next and the others are pushed, or the stack has no room |
| `MarshalWriter.Extern.ExternRec` | runtime/extern.c:763-910 | The loop with its explicit stack, output and position table writes exactly the traversal's items and counts their words; it runs out of memory only above 2^60/3 objects, of stack only when more than 2^26 values are pending at once, and gives up under COMPAT_32 exactly on an item that a 32-bit reader could not take |
| `MarshalWriter.Extern.Run` | runtime/extern.c:772-908 | The loop follows the planned traversal step by step |
| `MarshalWriter.Extern.Visit` | runtime/extern.c:773-896 | One value: what to write, whether COMPAT_32 lets it pass, its entry in the table, and whether its fields come next |
| `MarshalWriter.Extern.Classify` | runtime/extern.c:773-816 | Integer, atom, object seen before or new, agreeing with the traversal |
| `MarshalWriter.Extern.WriteValue` | runtime/extern.c:763-910 | The same with the output appended and the sizes counted |
| `MarshalWriter.Extern.RecordLocation` | runtime/extern.c:349-359 | The table then holds every object written at its place in the order of writing |
| `MarshalWriter.Extern.Emit` | runtime/extern.c:494-553 | The output is always the concatenation of the items written so far |
| `MarshalWriter.Extern.CountWords` | runtime/extern.c:814-895 | The 32-bit and 64-bit sizes grow by a header and the fewest words of 4 and of 8 bytes that hold the object of the item (WordsHoldItems) |
| `MarshalWriter.WordsHoldItems` | runtime/extern.c:815-895 | Both sizes are a header and the fewest words of 8, or of 4, bytes that hold the contents; 0 for what is not allocated |
| `MarshalWriter.Fits32Means` | runtime/extern.c:558-673 | What COMPAT_32 lets pass: integers of 31 bits, and objects whose size in 32-bit words has 22 bits |
| `MarshalWriter.Extern.constructor` | runtime/extern.c:114-139 | Nothing written, nothing recorded |
| `MarshalWriter.PlanShared` | runtime/extern.c:763-910 | With sharing, the loop's turns are the graph traversal |
| `MarshalWriter.PlanPlain` | runtime/extern.c:763-910 | Without sharing, they are the traversal of the unfolding |
| `MarshalWriter.RoomOk` | runtime/extern.c:188-210 | The stack refuses to grow only with 2^26 - 1 entries in use |
| `MarshalWriter.ChunkedStream` | runtime/extern.c:494-506 | Appending item by item gives the stream of all items |
| `MarshalWriter.PositionsAppend` | runtime/extern.c:349-359 | Recording one more object extends the numbering and changes no position |
| `MarshalReader.MessageRoundTrip` | runtime/intern.c:753-807 | A whole message, header and data, followed by anything, reads back as an isomorphic graph; the words allocated and the table entries used are exactly those that the header announces, the objects do not overlap in them, and the lengths add up |
| `MarshalReader.PlainMessageRoundTrip` | runtime/intern.c:753-807 | The same under NO_SHARING, with object count 0 and no table |
| `MarshalReader.MessageHeaderRoundTrip` | runtime/extern.c:968-996 | Small or big, the header is parsed as what was written; COMPAT_32 refuses it exactly when a size does not fit |
| `MarshalReader.SmallHeaderRoundTrip` | runtime/extern.c:989-996 | The 20-byte header |
| `MarshalReader.BigHeaderRoundTrip` | runtime/extern.c:970-987 | The 32-byte header |
| `MarshalReader.OutputValue` | runtime/extern.c:916-997 | The message of a value; no message, and the outcome Incompatible, under COMPAT_32 exactly when an item or a size does not fit 32 bits; otherwise the reason why there is none; the sizes in its header are those of WordsHoldItems |
| `MarshalReader.InputValue` | runtime/intern.c:753-807 | Parsing and reading: malformed exactly as the decoder says, and otherwise complete unless 2^26 destinations are pending at once, with objects that do not overlap |
| `MarshalReader.InputPlaced` | runtime/intern.c:753-807 | The objects read from any input do not overlap, and end at the bump pointer |
| `MarshalReader.Intern.InternRec` | runtime/intern.c:443-727 | The loop over the item stack computes the stream reader; it reports a malformed stream only on inputs that the reader refuses, and overflows only when 2^26 destinations are pending at once |
| `MarshalReader.Intern.ReadNext` | runtime/intern.c:484-720 | One turn of the loop is one turn of the stream reader |
| `MarshalReader.Intern.Interpret` | runtime/intern.c:489-623 | One item: its value allocated, recorded and stored, the fields to read next |
| `MarshalReader.Intern.AllocObj` | runtime/intern.c:419-441 | Allocation at the bump pointer and the entry in the object table |
| `MarshalReader.Intern.StoreAt` | runtime/intern.c:707-720 | The store to the current destination |
| `MarshalReader.Intern.constructor` | runtime/intern.c:386-417 | An empty heap, the object table present iff objects are announced |
| `MarshalReader.WalkWords` | runtime/extern.c:814-895 | The size counted over items is the size of the objects written |
| `MarshalReader.PlainDest` | runtime/intern.c:419-441 | Without sharing too, the words allocated are the words counted |
| `MarshalReader.ObjectsFit` | runtime/intern.c:386-417 | The number of objects never exceeds the number of words |
| `PositionTable.Table.Lookup` | runtime/extern.c:328-343 | The hash table refines a finite map: found if and only if recorded, with the recorded position, otherwise the free slot at which to record; the probe ends because a slot is always free |
| `PositionTable.Table.Record` | runtime/extern.c:349-359 | Recording extends the map by one entry; it fails only when about 2^60/3 objects are recorded |
| `PositionTable.Table.Resize` | runtime/extern.c:268-321 | Growing keeps the map, and fails if and only if the new byte size does not fit a word |
| `PositionTable.Table.constructor` | runtime/extern.c:227-238 | An empty map in 256 slots |
| `PositionTable.Rehash` | runtime/extern.c:268-321 | Reinsertion keeps the map and the number of entries |
| `PositionTable.FreeSlot` | runtime/extern.c:308-313 | The first free slot on the probe path |
| `PositionTable.FreeMeansAbsent` | runtime/extern.c:328-343 | A free slot on a key's probe path means that the key is not recorded |
| `PositionTable.Insert` | runtime/extern.c:349-359 | Filling such a slot keeps the probe invariant |
| `PositionTable.HashBound` | runtime/extern.c:212-223 | A hash is a valid slot |
| `PositionTable.GrownSize` | runtime/extern.c:268-300 | Shift and size stay related when the table grows |
| `Fibers.RunLinear` | runtime/interp.c:1284-1413 | Over every run of perform, reperform, resume, return, raise, allocate, grow, use, put back and drop operations that drops no chain of several fibers: each fiber is in exactly one of the running chain, one continuation, one taken chain and the released ones, and none is lost |
| `Fibers.ExactlyOnePlace` | runtime/fiber.c:561-660 | The same read off the chains: no fiber occurs in two chains or twice in one |
| `Fibers.TailKept` | runtime/interp.c:1330-1413 | Over every run, the tail passed to a handler with a continuation is the last fiber of the chain the continuation holds, whatever happens until the handler passes the effect on or sets field 1 |
| `Fibers.UsedOnce` | runtime/fiber.c:598-625 | A continuation once used stays empty over every later run in which it is not put back, so it resumes at most once |
| `Fibers.StepGood` | runtime/interp.c:1284-1413 | Every operation keeps linearity, the pointers and the stack cache right |
| `Fibers.StepLost` | runtime/fiber.c:662-667 | An operation loses a fiber if and only if it drops a continuation whose chain has more than one fiber |
| `Fibers.DropCounterexample` | runtime/fiber.c:662-667 | A reachable state in which dropping loses a fiber |
| `Fibers.DropLinear` | runtime/fiber.c:662-667 | Dropping releases the first stack only; none is lost if and only if the chain has one fiber |
| `Fibers.PerformedGood` | runtime/interp.c:1330-1369 | PERFORM: the running fiber becomes the continuation's chain |
| `Fibers.ReperformedGood` | runtime/interp.c:1371-1413 | REPERFORMTERM: the running fiber joins the captured chain at its end |
| `Fibers.ResumedGood` | runtime/interp.c:1296-1318 | RESUME: the taken chain goes in front of the running one, in order |
| `Fibers.UsedGood` | runtime/fiber.c:598-625 | Taking the chain off a continuation |
| `Fibers.ReplacedGood` | runtime/fiber.c:654-660 | Putting it back |
| `Fibers.FinishedGood` | runtime/interp.c:580-601 | The running fiber returns to its parent and is released |
| `Fibers.AllocatedGood` | runtime/fiber.c:143-193 | A stack from the cache or the allocator is nowhere else |
| `Fibers.ReallocatedGood` | runtime/fiber.c:489-551 | A larger stack takes the running one's place in the chain |
| `Fibers.TraceGood` | runtime/interp.c:1284-1413 | The invariant holds in every state of a run |
| `Fibers.BucketMeans` | runtime/fiber.c:128-140 | A stack is in a bucket if and only if that is the first whose size, doubled from the fiber size, is its own |
| `Fibers.StackCacheBucket` | runtime/fiber.c:128-140 | The loop finds that bucket, or -1 |
| `Fibers.Machine.PerformEffect` | runtime/interp.c:1330-1369 | Handled if and only if the running chain has a parent; otherwise nothing moves. The tail passed to the handler is the last fiber of the captured chain |
| `Fibers.Machine.ReperformEffect` | runtime/interp.c:1371-1413 | With the tail that the handler was passed, appends the running fiber to the captured chain and passes the effect on, or, at the outermost handler, resumes the captured chain in order in front of the running one |
| `Fibers.Machine.ResumeStack` | runtime/interp.c:1296-1318 | The running chain becomes the captured chain followed by the old running chain |
| `Fibers.Machine.Continue` | stdlib/effect.ml:61-69 | The first call resumes, every later call finds the continuation already resumed |
| `Fibers.Machine.SetLast` | stdlib/effect.ml:79-102 | The tail that the handler was passed, stored in field 1, is the end of the chain |
| `Fibers.Machine.UseNoexc` | runtime/fiber.c:598-625 | Hands the chain over once, then nothing |
| `Fibers.Machine.UseAndUpdateHandler` | runtime/fiber.c:635-652 | The new handler goes to the last fiber of the chain |
| `Fibers.FollowParents` | runtime/fiber.c:635-652 | Following parents from the first fiber of a chain ends at its last |
| `Fibers.Machine.FinishFiber` | runtime/interp.c:580-601 | Back to the parent, or out of the interpreter if there is none |
| `Fibers.Machine.AllocStack` | runtime/fiber.c:143-193 | Cached stacks first; fails if and only if there is no cached one and the allocator has none |
| `Fibers.Machine.DropContinuation` | runtime/fiber.c:662-667 | Frees the first stack of the chain, if the continuation has not been used |
| `Fibers.Machine.constructor` | runtime/fiber.c:553-559 | One running fiber, an empty cache |
| `AddrMap.Map.Contains` | runtime/addrmap.c:38-52 | Answers membership, within 100 probes |
| `AddrMap.Map.Lookup` | runtime/addrmap.c:54-66 | Finds the value of a key that is there; the unbounded probe loop ends |
| `AddrMap.Map.TryInsert` | runtime/addrmap.c:100-109 | The probe finds the key, or inserts it, or the chain is exhausted and nothing changes |
| `AddrMap.Map.InsertPos` | runtime/addrmap.c:93-125 | The slot of the key, inserted if it was absent, all other entries kept across any number of doublings; fails only when the table cannot be doubled |
| `AddrMap.Map.Rehash` | runtime/addrmap.c:110-123 | Doubling keeps the contents, even when reinsertion doubles again |
| `AddrMap.Map.Store` | runtime/addrmap.c:115-121 | Writing through the returned pointer changes that key only |
| `AddrMap.Map.Insert` | runtime/addrmap.c:127-131 | Adds one entry |
| `AddrMap.Map.constructor` | runtime/addrmap.c:80-83 | The empty map |
| `AddrMap.KeyChain` | runtime/addrmap.c:54-66 | Every key sits at most 100 probes from home, past other keys only |
| `AddrMap.PresentIsAhead` | runtime/addrmap.c:38-52 | Probing for a present key meets neither a free slot nor the end of the chain first |
| `AddrMap.FillOk` | runtime/addrmap.c:100-109 | Filling the first free slot keeps the chain invariant |
| `AddrMap.StoreOk` | runtime/addrmap.c:115-121 | So does overwriting a value |
| `MarkStack.Stack.Prune` | runtime/major_gc.c:2044-2096 | Compression keeps exactly the pending fields: spans and unprocessed bits before, large spans and bits after; it fails only when the map cannot grow |
| `MarkStack.Stack.Realloc` | runtime/major_gc.c:811-854 | Keeps the pending fields; a full stack gets room if and only if one of its entries is not large, or its size is small against the heap and it can be doubled |
| `MarkStack.ReallocCounterexample` | runtime/major_gc.c:811-854 | A stack of the initial size full of large spans, in a heap of at most 32 times that size, comes back full |
| `MarkStack.Stack.PushRange` | runtime/major_gc.c:856-867 | Adds exactly the fields of the span; fails only in the exhausted state |
| `MarkStack.Stack.Pop` | runtime/major_gc.c:1080-1082 | Takes the top span, and only its fields |
| `MarkStack.Stack.TakeChunk` | runtime/major_gc.c:1150-1160 | Takes one chunk of the compressed stack; its fields, and no others, stop pending |
| `MarkStack.Stack.CountLarge` | runtime/major_gc.c:822-829 | The number of large entries |
| `MarkStack.Stack.constructor` | runtime/major_gc.c:2098-2115 | Nothing pending |
| `MarkStack.Compress` | runtime/major_gc.c:2068-2083 | The in-place loop keeps the large spans in order and moves all fields of the others to the map |
| `MarkStack.PruneInto` | runtime/major_gc.c:2044-2096 | The spans and the map that compression makes, with the same fields pending |
| `MarkStack.CopyRest` | runtime/major_gc.c:2050-2066 | The new map has exactly the bits not processed yet |
| `MarkStack.AddSpan` | runtime/major_gc.c:2077-2081 | Adds the addresses of a span |
| `MarkStack.AddAddr` | runtime/major_gc.c:2022-2042 | Sets one bit of one chunk and changes no other |
| `MarkStack.NextTaken` | runtime/caml/addrmap.h:47-95 | Skipping free slots skips no field |
| `MarkStack.TargetSize` | runtime/major_gc.c:831-846 | In bytes and divided back, the new size is twice the old one less the large entries |
| `MarkStack.LargeSubset` | runtime/major_gc.c:2068-2083 | What stays on the stack was on it and is large |
| `Marking.Marker.Mark` | runtime/major_gc.c:1145-1176 | Main theorem for one domain: mark ends for every heap, stack and budget; no field is lost; when it is done, the marked blocks are exactly those reachable from where it started; otherwise the budget is used up and there is strictly less to do |
| `Marking.Marker.DoSomeMarking` | runtime/major_gc.c:995-1125 | Ends, with an empty ring, with spans left only if the budget is used up, and every field of every block it marked leads to a marked block or is still pending |
| `Marking.DoneExact` | runtime/major_gc.c:1145-1176 | Nothing lost, nothing pending and nothing marked out of reach: then marked means reachable |
| `Marking.DoneMarked` | runtime/major_gc.c:1145-1176 | With nothing pending, everything on a path from a marked block is marked |
| `Marking.ReachClosed` | runtime/major_gc.c:995-1125 | What can be reached from the marked blocks and the pending fields is closed under pointers |
| `Marking.Marker.Iterate` | runtime/major_gc.c:1005-1120 | Each turn of the loop makes the measure (unmarked blocks, words on the stack, ring, waterline) smaller |
| `Marking.Marker.MarkNext` | runtime/major_gc.c:1006-1119 | A turn on a pointer of the ring |
| `Marking.Marker.ScanNext` | runtime/major_gc.c:1080-1119 | A turn on a span of the stack |
| `Marking.Marker.MarkFromRing` | runtime/major_gc.c:1006-1066 | Takes a pointer from the ring, and it is accounted for |
| `Marking.Marker.MarkPopped` | runtime/major_gc.c:1018-1065 | A block already marked is left alone; another is marked, its fields to be scanned now |
| `Marking.Marker.ScanSpan` | runtime/major_gc.c:1084-1119 | Scans a span and leaves the rest of it on the stack |
| `Marking.Marker.ScanFields` | runtime/major_gc.c:1084-1106 | Children go to the ring until the budget or the ring is exhausted |
| `Marking.Marker.PushRest` | runtime/major_gc.c:1108-1119 | What is left of the span is pushed, and nothing is if nothing is left |
| `Marking.Marker.PushBlock` | runtime/major_gc.c:870-913 | The fields skipped hold no pointer, the others become pending |
| `Marking.Marker.Darken` | runtime/major_gc.c:939-985 | The block is marked and its fields pending; nothing changes if it was marked |
| `Marking.Marker.DarkenCont` | runtime/major_gc.c:1180-1206 | The continuation and everything on its stack |
| `Marking.Marker.DarkenAll` | runtime/major_gc.c:1180-1206 | Every value on the stack, through chains of continuations |
| `Marking.Marker.DarkenChunk` | runtime/major_gc.c:1162-1167 | Every field of a chunk |
| `Marking.Marker.MarkChunk` | runtime/major_gc.c:1150-1167 | A chunk leaves the compressed stack with its fields darkened |
| `Marking.Marker.constructor` | runtime/major_gc.c:1145-1150 | A marker bounded by what it can reach |
| `Marking.Ring.Push` | runtime/major_gc.c:250-258 | Appends to the ring |
| `Marking.Ring.Pop` | runtime/major_gc.c:260-267 | Takes the oldest |
| `Marking.Ring.constructor` | runtime/major_gc.c:214-223 | The empty ring |
| `Compare.DoCompareVal` | runtime/compare.c:131-337 | The explicit-stack loop gives the verdict of recursive lexicographic comparison, in total and in partial mode, and that verdict is the right one (VerdictRight); it gives up only on values of more than 2^19 nodes |
| `Compare.VerdictRight` | runtime/compare.c:131-337 | What the verdict means, said without the comparison: integers by their value and below blocks; blocks by tag, then size, then the first fields that do not compare equal; strings by the first differing byte, unsigned, else the shorter below; doubles by the numbers they stand for, NaN below all in total mode and unordered otherwise |
| `Compare.RightUnique` | runtime/compare.c:131-337 | Only one verdict is right, so these clauses determine the comparison |
| `Compare.KeyOrder` | runtime/compare.c:225-239 | Doubles are ordered as the numbers that sign, exponent and mantissa stand for |
| `Compare.FloatsCompare` | runtime/compare.c:225-239 | Less, equal or greater exactly as the numbers are, NaN apart |
| `Compare.StringsCompare` | runtime/compare.c:212-224 | The first differing byte decides, and without one the length |
| `Compare.ArraysCompare` | runtime/compare.c:240-258 | The first elements that differ decide |
| `Compare.FieldsCompare` | runtime/compare.c:294-323 | The first fields that do not compare equal decide |
| `Compare.TreesFlip` | runtime/compare.c:131-337 | In total mode there is always a verdict, and exchanging the arguments flips it |
| `Compare.TreesReflexive` | runtime/compare.c:131-337 | In total mode every value equals itself, NaN included |
| `Compare.TreesChain` | runtime/compare.c:131-337 | In total mode comparison is transitive, and ties may be replaced on either side |
| `Compare.TreesPartial` | runtime/compare.c:131-337 | Without total mode the verdict is the same unless a NaN leaves it open |
| `Compare.NextHead` | runtime/compare.c:141-324 | One turn: the verdict, or pairs that decide it and are strictly less |
| `Compare.CompareHead` | runtime/compare.c:142-206 | Immediates against blocks, tags, and the switch |
| `Compare.CompareSameTag` | runtime/compare.c:206-314 | The switch on the tag of two blocks |
| `Compare.CompareLeafPair` | runtime/compare.c:212-258 | Strings, doubles and float arrays |
| `Compare.CompareStrings` | runtime/compare.c:212-224 | memcmp of the common prefix, then the lengths, is lexicographic order |
| `Compare.CompareDoubleArrays` | runtime/compare.c:240-258 | Elementwise, the first difference decides |
| `Compare.CompareDouble` | runtime/compare.c:225-239 | The tests on two doubles order them with NaN below everything in total mode, and leave NaN open otherwise |
| `Compare.MemcmpBytes` | runtime/compare.c:212-224 | The reference order on bytes is memcmp and then the lengths |
| `Compare.BlocksCompare` | runtime/compare.c:294-323 | Blocks of one tag and size compare as their fields in order |
| `Compare.BytesFlip` | runtime/compare.c:212-224 | Order on strings: reflexive and antisymmetric in sign |
| `Compare.BytesChain` | runtime/compare.c:212-224 | And transitive |
| `Compare.DoublesOrder` | runtime/compare.c:240-258 | Total order on float arrays |
| `Compare.Wrappers` | runtime/compare.c:339-385 | The six relational primitives say what the verdict means |
| `Hash.HashAgrees` | runtime/hash.c:184-298 | Values that total comparison finds equal have the same hash, for every count, limit and seed |
| `Hash.CamlHash` | runtime/hash.c:184-298 | The loop over the queue of at most 256 values computes the bounded breadth-first hash of the unfolding |
| `Hash.EqualTrees` | runtime/compare.c:131-337 | Total comparison gives 0 exactly on values that agree up to the sign of zero and the kind of NaN |
| `Hash.SameWalks` | runtime/hash.c:184-298 | Such values are walked alike, however the bounds cut the walk |
| `Hash.SameHead` | runtime/hash.c:204-291 | And contribute alike |
| `Hash.SameKeyMix` | runtime/hash.c:89-115 | Doubles that compare equal, both zeros and all NaNs included, mix alike |
| `Hash.NaNTests` | runtime/hash.c:89-115 | The NaN tests of hashing and comparison agree on every double |
| `Hash.HashMixDouble` | runtime/hash.c:89-115 | Normalisation and two mixing steps |
| `Hash.HashMixString` | runtime/hash.c:145-175 | All bytes in little-endian words, the rest of them, and the length |
| `Hash.HashMixDoubles` | runtime/hash.c:217-223 | Elements until the count is exhausted |
| `Hash.HashValue` | runtime/hash.c:204-291 | The switch on one value |
| `Hash.HashTurn` | runtime/hash.c:201-292 | One turn: a value leaves the queue, is mixed in, and its fields enter as long as there is room |
| `Hash.Enqueue` | runtime/hash.c:281-289 | The fields that still fit, in order, behind the others |
| `Hash.Plan` | runtime/hash.c:201-292 | The turns of the loop follow the breadth-first walk |
| `Doubles.ScaledIncreases` | runtime/compare.c:225-239 | Of two positive doubles the one with the greater bits is the greater number |
| `HashMixing.IntegerHash` | runtime/hash.c:56-72 | An integer of 31 bits goes into the hash as one word |
| `HashMixing.IntegersDiffer` | runtime/hash.c:56-72 | Two integers of 31 bits have different hashes before the fold to 30 bits, for every seed |
| `HashMixing.OneWordDiffers` | runtime/hash.c:33-46 | Values whose words differ in one place have different hashes before the fold to 30 bits, whatever comes before and after |
| `HashMixing.MixWordInjective` | runtime/hash.c:33-39 | MIX loses nothing of the word mixed in |
| `HashMixing.MixHashInjective` | runtime/hash.c:33-39 | Nor of the hash so far |
| `HashMixing.FinalMixInjective` | runtime/hash.c:41-46 | Before the fold FINAL_MIX loses nothing |
| `HashMixing.RunInjective` | runtime/hash.c:33-39 | No sequence of steps loses anything of the hash so far |
| `HashMixing.StringDetermined` | runtime/hash.c:145-175 | The words of a string and its length determine the string |
| `HashMixing.DoubleDetermined` | runtime/hash.c:89-115 | The words of two doubles are the same if and only if the doubles compare equal |
| `HashMixing.HeaderDetermined` | runtime/hash.c:281-289 | The word of a block determines its tag, and its size up to 22 bits |
| `HashBudget.Budget` | runtime/hash.c:184-298 | At most `count` meaningful values and at most `limit` values in all (one at least) go into the hash, and a value with fewer meaningful ones and no more in all goes into it whole |
| `HashBudget.SeenWithin` | runtime/hash.c:201-292 | The hash is made of what the values seen contribute, and they keep within both limits |
| `HashBudget.AllSeen` | runtime/hash.c:201-292 | When all fit the limit and fewer than the count are meaningful, all are seen |
| `HashBudget.HeadCounts` | runtime/hash.c:204-291 | Integers, strings and doubles count for one, float arrays for the elements seen, blocks for none |
| `HashValues.HashOfZero` | testsuite/tests/lib-hashtbl/hfun.reference:5-5 | The hash of 0 is 0x07be548a, for every count and limit: this fixes the constants and shifts of the mixing |
| `HashValues.HashOfHello` | testsuite/tests/lib-hashtbl/hfun.reference:3-3 | The hash of Hello world is 0x364b8272: this fixes the order of the bytes, what is done with the last ones, and the length |
| `HashValues.HashOfNaN` | testsuite/tests/lib-hashtbl/hfun.reference:15-17 | The hash of every NaN is 0x3228858d: this fixes the order of the halves and the NaN they are replaced by |
| `HexFloat.RoundsAllDigits` | runtime/floats.c:326-354 | For a digit string of any length, rounding the collected 60-bit mantissa to 53 bits is rounding the exact value of all digits |
| `HexFloat.RoundToOddThenNearest` | runtime/floats.c:334-354 | Rounding to odd at 60 bits and then to nearest-even at 53 bits is rounding once |
| `HexFloat.Collecting` | runtime/floats.c:326-348 | What the mantissa, its bit counts and the sticky bit stand for after any digits |
| `HexFloat.CollectMore` | runtime/floats.c:332-337 | A digit that still fits, or a leading zero |
| `HexFloat.CollectLater` | runtime/floats.c:338-345 | A digit after 60 bits only leaves a trace in the last bit |
| `HexFloat.UnitUnique` | runtime/floats.c:351-354 | The weight of the last of 53 bits is determined by the number |
| `HexString.HexRoundTrip` | runtime/floats.c:200-372 | Reading back what is printed without a precision gives the same mantissa times the same power of two, for every finite double |
| `HexString.FloatOfHex` | runtime/floats.c:285-372 | The scanning loop computes mantissa, exponent and failure for every string as Expected does, which HexGrammar says without the scanner |
| `HexString.FiniteIsRounded` | runtime/floats.c:350-371 | A finite result is the exact value of the digits rounded once, the exponent making up for all bits left out |
| `HexString.TakeDigit` | runtime/floats.c:326-347 | One more digit of the mantissa: collected, or rounded to odd when 60 bits are full |
| `HexString.TakeExponent` | runtime/floats.c:304-324 | The exponent, or the outcome that an ill-formed or huge one decides |
| `HexString.PrintFinite` | runtime/floats.c:238-279 | Without a precision: leading digit, fraction and exponent |
| `HexString.FractionChars` | runtime/floats.c:264-276 | The loop prints exactly the hexadecimal digits of the fraction without trailing zeros |
| `HexString.FractionValue` | runtime/floats.c:264-276 | Those digits make up the fraction |
| `HexString.ShiftOut` | runtime/floats.c:270-275 | Each turn shifts one digit out of the window |
| `HexString.ScanPrinted` | runtime/floats.c:297-349 | The digits come back as printed, the point after the first |
| `HexString.ExponentRoundTrip` | runtime/floats.c:304-324 | The signed decimal exponent is read back |
| `HexString.DecimalRoundTrip` | runtime/floats.c:304-324 | So is the decimal number |
| `HexGrammar.ReadAsWritten` | runtime/floats.c:285-372 | A string that writes digits, a point after some of them and a decimal exponent inside int is read as the digits rounded once, times the power of two that point and exponent say |
| `HexGrammar.Refused` | runtime/floats.c:297-349 | A string is refused if and only if it is outside the grammar, or has no digit while the exponent is inside int |
| `HexGrammar.DigitlessRead` | stdlib/float.mli:179-183 | Without any digit, an exponent of 2^31 - 1 or more is read as zero, where a digit is demanded |
| `HexGrammar.ReadAtTheEnds` | runtime/floats.c:310-319 | Exponents outside int decide: zero below, and above infinity unless all digits are zero |
| `HexGrammar.ReadingExact` | runtime/floats.c:297-349 | The scanner finds the digits, the point and the exponent that the string writes, and accepts nothing else |
| `HexGrammar.ScanExact` | runtime/floats.c:297-349 | The same for the mantissa: digits in either case and at most one point, up to the end or to p or P |
| `HexGrammar.StrtolExact` | runtime/floats.c:304-309 | The exponent is read as v if and only if it is white space, a sign or none, zeros, and the decimal digits of v |
| `HexGrammar.HexDigitExact` | runtime/floats.c:326-331 | A character is read as d if and only if it is the lower-case or the upper-case digit d |
| `HexGrammar.DecimalOnly` | runtime/floats.c:304-309 | A decimal number is its own digits with zeros in front |
| `HexGrammar.SpacesFirst` | runtime/floats.c:304-309 | White space in front changes nothing |
| `HexGrammar.PrintedShape` | runtime/floats.c:238-279 | What is printed without a precision: one digit, no point without a fraction, no zero at the end of a fraction, an exponent that always has a sign and no zero in front |
| `HexGrammar.PrintsLower` | runtime/floats.c:270-273 | Digits are printed in lower case |
| `HexGrammar.NoLastZero` | runtime/floats.c:264-276 | No zeros are printed at the end |
| `HexPrecision.FixedRoundTrip` | runtime/floats.c:200-372 | What is printed with a precision of at most 13 digits reads back as the mantissa rounded to the nearest number of that many digits, ties to even, times the same power of two, for every finite double |
| `HexPrecision.LongRoundTrip` | runtime/floats.c:200-372 | With a precision of 13 digits or more, however many, it reads back unchanged |
| `HexPrecision.HexstringOfFloat` | runtime/floats.c:200-283 | Sign, infinities, NaN and finite numbers, in the three styles, with any precision or none |
| `HexPrecision.PrintPrecise` | runtime/floats.c:247-279 | With a precision: the digits of the rounded mantissa, as many as asked for |
| `HexPrecision.RoundMantissa` | runtime/floats.c:247-260 | The rounding by mask and half unit is to the nearest multiple of the last digit, ties to even |
| `HexPrecision.RoundToNearest` | runtime/floats.c:247-260 | No multiple of the unit is nearer than the one taken, and one that is as near is odd |
| `HexPrecision.InUnitsBound` | runtime/floats.c:261-264 | Rounding up carries into the leading digit, which is at most 2 |
| `HexPrecision.DigitChars` | runtime/floats.c:265-276 | The loop prints the digits asked for, zeros beyond the window included |
| `HexPrecision.WindowDigit` | runtime/floats.c:270-275 | Each turn takes the first digit of what is left to print out of the window, whichever of the two is longer |
| `HexPrecision.DigitsValue` | runtime/floats.c:265-276 | The digits make up the number |
| `HexPrecision.FixedShape` | runtime/floats.c:265-279 | With a precision there are exactly as many digits after the point, zeros included |
| `HexSubnormal.ReadExact` | runtime/floats.c:285-372 | For every string with a finite result, ldexp and its saturated exponent included: the double read is the one nearest to the exact value of the digits, ties to even, if and only if the result is not subnormal with digits that 53 bits round to the middle between two doubles, from the side of the odd one |
| `HexSubnormal.ReadCounterexample` | runtime/floats.c:285-372 | 0x1.7fffffffffffffp-1074 is read as 2^-1073; the nearest double is 2^-1074 |
| `HexSubnormal.ReadDouble` | runtime/floats.c:285-372 | The reader with ldexp at its end, and the same condition |
| `HexSubnormal.PrintedReadsSame` | runtime/floats.c:200-372 | What is printed without a precision is read as the same double, subnormal or not |
| `HexSubnormal.TwiceExact` | runtime/floats.c:350-369 | Rounding to one power of two and then to a larger one is rounding once, if and only if the first rounding does not reach the middle from the side of the odd multiple |
| `HexSubnormal.LdexpExact` | runtime/floats.c:367-369 | So is ldexp of the mantissa rounded to 53 bits |
| `HexSubnormal.SaturationHarmless` | runtime/floats.c:355-366 | An exponent that is saturated gives the same double |
| `HexSubnormal.ShiftExponent` | runtime/floats.c:355-366 | Bits after the mantissa may be moved to the exponent |
| `Bigarray.Offset` | runtime/bigarray.c:678-700 | The offset loop accepts exactly the indices in bounds, and gives the address of the element in either layout |
| `Bigarray.AddressRange` | runtime/bigarray.c:678-700 | In either layout every address is inside the data |
| `Bigarray.AddressInjective` | runtime/bigarray.c:678-700 | Different indices have different addresses |
| `Bigarray.AddressSurjective` | runtime/bigarray.c:678-700 | Every cell of the data is the address of an index: with the two above, a bijection |
| `Bigarray.AddressOrder` | runtime/bigarray.c:678-700 | The last index is the fastest in C layout and the first in Fortran layout: addresses are in lexicographic order of the indices, read from the left or from the right |
| `Bigarray.BoundsExact` | runtime/bigarray.c:678-700 | Indices count from 0 in C layout and from 1 in Fortran layout |
| `Bigarray.OffsetOrder` | runtime/bigarray.c:678-700 | Offsets are in lexicographic order |
| `Bigarray.Slice` | runtime/bigarray.c:1104-1148 | Succeeds exactly when the fixed indices are in bounds; every element of the slice is the parent's element at the completed index |
| `Bigarray.Sub` | runtime/bigarray.c:1182-1224 | Succeeds exactly on ranges inside the changed dimension; every element is the parent's element moved by the offset |
| `Bigarray.ChangeLayout` | runtime/bigarray.c:1152-1177 | Every element is the parent's at the reversed index, and addresses the same cell |
| `Bigarray.Reshape` | runtime/bigarray.c:1371-1405 | Succeeds exactly when the true product of the dimensions is the number of elements, although the product is computed modulo 2^64; the same cells in the same order |
| `Bigarray.CheckSize` | runtime/bigarray.c:225-262 | The checked product accepts exactly what fits a word |
| `Bigarray.NumElts` | runtime/bigarray.c:174-181 | The product in a word is the number of elements of an allocated array |
| `Bigarray.ReadDims` | runtime/bigarray.c:1385-1391 | Dimensions are non-negative and their product is taken in a word |
| `Bigarray.Stride` | runtime/bigarray.c:1193-1205 | The product of the other dimensions |
| `Bigarray.SliceRight` | runtime/bigarray.c:1104-1148 | A view at the first element with the remaining dimensions is a slice |
| `Bigarray.SubRight` | runtime/bigarray.c:1182-1224 | A view moved by whole blocks is a sub-array |
| `Bigarray.MirrorRight` | runtime/bigarray.c:1152-1177 | Reversed dimensions over the same data mirror the indices |
| `Bigarray.ReshapeRight` | runtime/bigarray.c:1371-1405 | Equal products over the same data cover the same cells |
| `Bigarray.OffsetBound` | runtime/bigarray.c:678-700 | Offsets are below the number of elements |
| `Bigarray.OffsetInjective` | runtime/bigarray.c:678-700 | Offsets are unique |
| `Bigarray.OffsetSurjective` | runtime/bigarray.c:678-700 | And leave no gap |
| `DomainSlots.StwDomains.Create` | runtime/domain.c:573-622 | Succeeds exactly when the creation does and a slot is free, which no running domain has; a creation that fails late leaves its slot initialised; the slots stay a permutation whose prefix is the running domains, and the initialised slots a prefix |
| `DomainSlots.StwDomains.Terminate` | runtime/domain.c:273-285 | The domain leaves the prefix, the slots stay a permutation |
| `DomainSlots.StwDomains.InterruptAll` | runtime/domain.c:1612-1625 | Stopping at the first slot without an interrupt word still reaches every initialised slot, hence every running domain |
| `DomainSlots.StwDomains.constructor` | runtime/domain.c:911-935 | All slots free and uninitialised |
| `DomainSlots.Find` | runtime/domain.c:273-279 | The search ends inside the prefix |
| `DomainSlots.SwapPermutation` | runtime/domain.c:273-285 | Swapping keeps the permutation |
| `DomainSlots.SwapPrefix` | runtime/domain.c:273-285 | Trading places with the last participant removes exactly that domain from the prefix |
| `DomainSlots.SwapUsed` | runtime/domain.c:255-285 | And keeps the initialised slots in front |
| `DomainSlots.NextFree` | runtime/domain.c:287-293 | The slot offered runs no domain |
| `DomainSlots.RunningUsed` | runtime/domain.c:255-271 | Running domains have an interrupt word |
| `FinaliseCalls.RunTrue` | runtime/finalise.c:31-114 | Over every run, what is called is the function that was registered under that number: with its value and offset for Gc.finalise, with unit for Gc.finalise_last; what is still in a table is as it was registered |
| `FinaliseCalls.StepTrue` | runtime/finalise.c:31-114 | Every step keeps that |
| `FinaliseCalls.EraseDue` | runtime/finalise.c:83-92 | What goes on a list keeps its value exactly when the value is darkened |
| `FinaliseCalls.UpdateTrue` | runtime/finalise.c:51-114 | So does the major update |
| `FinaliseCalls.MinorTrue` | runtime/finalise.c:233-292 | And the minor update |
| `FinaliseCalls.CallsQueue` | runtime/finalise.c:145-175 | The calls that a domain still has to make are a queue: a step takes the first, adds at the end, or hands all of them on |
| `FinaliseAges.RunAges` | runtime/finalise.c:298-345 | Over every run in which domains end after a minor collection: what was registered since the last minor collection of its domain is in the young part of its table, where the minor update looks for it |
| `FinaliseAges.StepAges` | runtime/finalise.c:298-345 | Every step keeps that |
| `FinaliseAges.RegisterAges` | runtime/finalise.c:356-392 | Registering adds at the young end |
| `FinaliseAges.AdoptAges` | runtime/finalise.c:306-345 | What orphans bring goes into the old part, all of it old |
| `FinaliseAges.UpdateShrunk` | runtime/finalise.c:52-114 | The major update moves nothing from the young part to the old one |
| `FinaliseAges.MinorShrunk` | runtime/finalise.c:233-292 | Nor does the minor update |
| `Finalise.RunConserves` | runtime/finalise.c:31-114 | Over every run of register, major and minor update (whenever nothing is written past its list), call, orphan and adopt steps of all domains, every registration is in exactly one place: a table, a list, an orphan or the functions called |
| `Finalise.CalledOnce` | runtime/finalise.c:145-175 | No registration is called twice, and none that was called is anywhere else |
| `Finalise.StepConserves` | runtime/major_gc.c:431-537 | Each step keeps that |
| `Finalise.StepCount` | runtime/major_gc.c:431-537 | No step changes the number of places of a registration, except that a new one gets its first |
| `Finalise.StepOk` | runtime/finalise.c:298-345 | `old` never passes the end of a table |
| `Finalise.GenericFinalUpdate` | runtime/finalise.c:52-114 | A stable partition: white old entries to a new list in order, the others and the young ones kept in order |
| `Finalise.Partition` | runtime/finalise.c:79-97 | The in-place loop |
| `Finalise.MoveYoung` | runtime/finalise.c:98-104 | The young part moves down |
| `Finalise.CountWhite` | runtime/finalise.c:59-65 | The counting loop |
| `Finalise.PickConserves` | runtime/finalise.c:52-114 | The partition loses nothing and doubles nothing |
| `Finalise.GenericFinalMinorUpdate` | runtime/finalise.c:232-290 | With a list of the counted size: the entries left in the table, the full list that is published, and what is written past its end, which is nothing if and only if the count fits what is taken out |
| `Finalise.TakenAtLeast` | runtime/finalise.c:257-282 | For every table, the partition loop, which looks at the next free slot for youth, takes out at least as many entries as were counted |
| `Finalise.MinorConservesExact` | runtime/finalise.c:232-290 | The minor update keeps every registration in as many places as before if and only if the two numbers agree |
| `Finalise.MinorUpdateExact` | runtime/finalise.c:257-282 | The loop takes out exactly the dead entries if and only if no entry of the major heap comes after a dead one |
| `Finalise.MinorUpdateCounterexample` | runtime/finalise.c:232-290 | A dead entry and a live one of the major heap: one is counted, both are taken out, and the live one is on no list and in no table |
| `Finalise.MinorUpdateWrongEntries` | runtime/finalise.c:232-290 | Four entries on which the numbers agree and nothing is lost, but a live entry is taken out and a dead one left |
| `Finalise.MinorPicks` | runtime/finalise.c:232-290 | When no entry of the major heap comes after a dead one, the loop is a stable partition and the numbers agree |
| `Finalise.MinorPartition` | runtime/finalise.c:257-282 | The in-place loop as written, with a list of the given size |
| `Finalise.PartitionEntry` | runtime/finalise.c:262-277 | One turn of it |
| `Finalise.CountDead` | runtime/finalise.c:239-246 | The counting loop, which looks at the entry at hand |
| `Finalise.SlotsUsed` | runtime/finalise.c:257-282 | Every entry left in the table has used up a slot of the major heap or was copied itself |
| `Finalise.DoCalls` | runtime/finalise.c:145-175 | The functions called, followed by those left, are the lists there were and those that the functions called have added, in order, each from its end; it stops early only at a function that raises, and does nothing when called from within a function |
| `Finalise.CallOne` | runtime/finalise.c:153-171 | One turn of it |

## Left out

- Weak memory: every step is one sequentially consistent access.
- Sweeping, compaction, the shared heap allocator, minor collection (except that a field may be
  redirected to a promoted block), pacing of slices and statistics.
- The sweeping of ephemerons and the adoption of orphaned ephemerons: the
  counters are modelled for the two marking phases.
- Upper levels of the skip list: a search or a look-up may start at any cell inserted earlier
  with a smaller key. The data stored with a key is not modelled; keys are.
- Closures, custom blocks, objects, forwarding, infix pointers, abstract blocks and compressed
  messages in marshalling, comparison and hashing.
- Bytes that no writer produces, beyond their being refused or not: what is read from them is
  not stated.
- Failures of the C allocator below the limits of the word size, except where a parameter says
  whether a stack can grow or a stack is available.
- Callbacks, polling and collections in the middle of a comparison.
- Frames, traps, code pointers and values on fiber stacks: a fiber is its identity, its parent,
  its handler and its size class.
- Races of two domains on one continuation: taking it is one step.
- Creation of a domain beyond its slot, its lock and its interrupt word.
- EphemeronFixpoint.Fixpoint: the runs replace keys under the guard of SetKeysExact only, since
  the property is false without it; the code has no such guard.
- Fibers.RunLinear: the runs contain no drop of a chain of several fibers, since fibers get lost
  exactly then (StepLost).
- Finalise.RunConserves: a minor update is a step only when its count fits what it takes out
  (MinorConservesExact), since memory is overwritten otherwise; values moved by a minor
  collection keep their names.
- FinaliseCalls.RunTrue: over the same runs.
- FinaliseAges.RunAges: likewise, and a domain ends only after a minor collection, as the code
  demands when it merges the tables.
- MarshalReader.MessageRoundTrip: the data and the words are fewer than 2^64, as memory has it.
- MarshalReader.PlainMessageRoundTrip: likewise, and the value is acyclic; on a cyclic value the
  writer does not end.
- MarshalWriter.Extern.ExternRec: without sharing the value is acyclic.
- Compare.DoCompareVal: the values are acyclic and hold integers, strings, floats, float arrays,
  atoms and ordinary blocks.
- Hash.CamlHash: likewise; objects, custom blocks, closures and forwarding are not hashed.
- HashMixing.IntegersDiffer: integers of 31 bits; wider ones are folded to 32 bits before they are
  mixed, and some of them share a word.
- HashMixing.HeaderDetermined: sizes up to 22 bits, since the word has no more of them.
- HexString.FloatOfHex: the bit counters do not overflow an int; the result is the pair that
  ldexp is given, and HexSubnormal has the rest.
- HexSubnormal.ReadExact: ldexp is taken to round to nearest, ties to even; exponents that alone
  decide zero or infinity are those of HexString.TakeExponent.
- Bigarray.Sub: arrays of no dimension are excluded, for which the code looks at a dimension that
  does not exist.
- Bigarray.Reshape: the array is one that could be allocated.
- AddrMap.Map.Lookup: only for keys that are in the map, as its loop demands.
- LockFreeList.ListShape: level 0 only.
- LockFreeList.Unsuccessful: that an operation ends is not stated, only what it may answer.
- LockFreeLookup.FindBelow: whether a disturbed call answers wrongly depends on where the reader
  is at that time; the answer is wrong in some call with each disturbance, not in every one.
