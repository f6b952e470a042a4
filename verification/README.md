# Together In, Together Out: a verified model

A TITO queue admits members in groups, never splits a group while it waits, and lets a group go
only as a whole, once every member has been marked ready. Under *strict* order only the oldest
waiting group may leave; under *relaxed* order any ready group may, oldest first.

The repository keeps the discipline three times: `tito/tito.py`, fast through redundant tables, a
lazily cleaned heap and a readiness callback, and thread-safe through one shared lock;
`examples/tito_example.py`, which finds the next group by scanning; and `examples/tito_example.c`,
on fixed arrays. This project models all three as they are written, updated in place, proves each
against one description of the discipline on values, and proves about that description what the
package promises.

## Layout

| file | what it holds |
|---|---|
| `Lists.dfy` | order-preserving selections from a sequence |
| `Discipline.dfy` | the discipline on values: states, calls, what each caller sees, the invariant |
| `Answers.dfy` | the discipline once more, by quantifiers over the line, and that the two are one |
| `Guarantees.dfy` | what holds over every run: conservation, order, draining, cancelling, agreement |
| `TwoPolicies.dfy` | one trace on a strict and a relaxed queue, side by side |
| `Lateness.dfy` | what an admission that only one of them accepts can lead to |
| `ReadyIndex.dfy` | the relaxed queue's index on values: refinement, exactness, cost, callbacks |
| `BinaryHeap.dfy` | a proved binary heap with the contract of `heapq` |
| `Tables.dfy` | the two dictionaries both Python queues keep |
| `Tito.dfy` | the package's `Group` and `TitoQueue` |
| `Scan.dfy` | the scanning `Group` and queue |
| `Lockstep.dfy` | one script of calls driven through both Python queues |
| `Threads.dfy`, `Protocol.dfy`, `Interleaving.dfy` | the lock protocol: micro-steps, what memory is worth at each, all schedules |
| `ProgramOrder.dfy` | that every thread is served the calls it made |
| `Progress.dfy` | how much the holder of the lock has left to do |
| `BoundedArray.dfy` | the C queue and its name buffers |
| `BoundedRuns.dfy` | one script of calls driven through the C queue, against the scanning discipline |
| `Examples.dfy` | concrete runs on which a tempting statement fails |

A `State` names groups by arrival number, so a departed group, or another group admitted later
under the same id, is never mistaken for the first. The classes carry a ghost copy of that state;
`Valid()` ties every field to it, and every method says which step of the discipline it took and
what its caller got. The steps of the discipline look groups up and pick the first that fits;
`Answers` says the same without looking anything up, as a relation between the line before, the
answer and the line after, and shows that the relation leaves no other outcome. Two ghost fields stand for what the program does not store: `history`, every
group ever admitted, and `home`, the queue that admitted a group. The readiness callback is a
nullable link from a group to its queue. A None group id is the value `None` of `Option`; a bare
string given as members is the case `Text` of `Batch`.

A `Failure` or `Rejected` stands for any refusal. The package always refuses with a TitoError; the
scanning queue sometimes refuses with a TypeError instead, while it formats its message
(`" ".join(queued)` on members that are not strings, `examples/tito_example.py:92`, and `%` on an id
that is a tuple, line 89). Either way nothing has changed, so the two are compared by what they
accept, refuse and return.

Some statements one might expect are false of the code. Each is proved in the form in which it
holds, and shown to fail as it stands by a run in `Examples`, for the C queue by one in
`BoundedRuns`, and for the cost of a mark by the contract of `Heappush`:

- *The two Python queues agree.* They do exactly when no bare string is admitted (the scan queue
  takes it for its letters, the package refuses it) and no member of a group admitted under the id
  None is looked up (the scan queue reads that id as "not queued"): `IndexedMatchesScan`,
  `RunBoth`; `BareStringDiverges`, `NoneIdDiverges`.
- *Relaxed order is never later than strict order*, on any trace. A group is named by the call that
  admitted it, and is late when both queues accepted it, the strict queue has released it and the
  relaxed queue has not. Nobody is late on a trace on which no admission splits the queues, that is,
  is accepted by the relaxed queue alone; so nobody is late on a trace whose admissions the strict
  queue accepts: `RelaxedNeverLater`, `AcceptedTogether`. The condition is exact, call by call: on a
  trace without splits an admission splits exactly when the callers can go on, without another
  split, so that somebody is late: `SplitIff`, and over whole traces `UnsplitIff`. On
  `DelayedIsLate` somebody is. A split alone does not make anybody late yet: `OvertakingSplits`.
- *Cancelling is the only way a group departs without every member being ready*
  (`tito/tito.py:322-323`). Clearing is the other, and there is no third: `UnreadyLeaves`;
  `ClearTakesUnready`.
- *Cancelling leaves the rest of what can leave as it was.* Under relaxed order it does. Under
  strict order more can leave afterwards, exactly when the group cancelled was the one in the way:
  `CancelOnlyUnblocks`; `CancelMakesWay`.
- *The C queue answers like the scanning queue.* Over a run it does exactly when no admission
  overflows the fixed sizes: `RunC`; `LongIdOverflows`.
- *`mark_ready()` is O(1) under relaxed order* (the table in the repository's own `README.md`, line
  158). It leaves the heap alone exactly unless it completes a waiting group: `NoticeIsNews`. Then
  it pushes once, which takes at most one exchange a level, and one on every level when the group
  is older than all in the heap: `Heappush`. So a completing mark is O(log n), not O(1).

## Model

| member | source | states |
|---|---|---|
| Guarantees.Conservation | tito/tito.py:248-405 | Over every run each admitted group is in exactly one of waiting, released, cancelled and cleared, exactly once, and every released group was wholly ready. |
| Answers.RightIsStep | tito/tito.py:248-423 | For every call, the line after it and its answer are as the quantified description says exactly when they are what the discipline gives: which group is admitted, marked, found, cancelled, peeked at or released, what the caller is told, and what stays the same. |
| Answers.RefusedExactly | tito/tito.py:284-333 | A call is refused exactly when it admits a bare string, an empty or repetitive batch, or an id or member of a waiting group; marks a member, or names an id, that no waiting group has; or marks on a group a member it does not have. No other call is refused. |
| Answers.RefusalChangesNothing | tito/tito.py:252-333 | A refused call leaves everything as it was. |
| Answers.HandedExactly | tito/tito.py:319-381 | What leaves the line with a call is exactly what the call hands to its caller, each group once. |
| Answers.RightScanIsStep | examples/tito_example.py:85-161 | The same description, with bare strings taken for letters and groups under None out of sight, has exactly the outcomes of the scanning discipline. |
| Guarantees.StepKeeps | tito/tito.py:248-417 | Every call, accepted or refused, keeps the invariant: arrival order, waiting groups disjoint in ids and members, each group in one place, strict releases ahead of all that waits. |
| Guarantees.RunEvolves | tito/tito.py:248-417 | Over any further run groups keep id and members, marks are never taken back, departure records only grow, and a group that left is never in the line again. |
| Guarantees.NeverHandedTwice | tito/tito.py:319-381 | No two calls of a run hand their callers the same group, and none hands out a group already gone. |
| Guarantees.DepartureOrder | tito/tito.py:9-17 | Strict releases are in arrival order and the next is the oldest waiting group or none; relaxed releases overtake only groups not ready, and one is possible exactly when some waiting group is ready. |
| Guarantees.ReadyWhenAllMarked | tito/tito.py:144-171 | Whatever the order, repetition and route of the marks, a group is ready exactly when each of its members was marked by some call, and exactly when its count equals its size. |
| Guarantees.ReleaseAllExact | tito/tito.py:373-381 | Strict: the longest ready prefix leaves and the rest is untouched. Relaxed: exactly the ready groups leave, and exactly the others stay, both in order. Afterwards nobody can leave. |
| Guarantees.DrainStep | tito/tito.py:373-381 | Releasing one group and then all that can leave is releasing all that can leave; nothing can exactly when `release` gives None. |
| Guarantees.CancelOnlyUnblocks | tito/tito.py:319-333 | Relaxed: after a cancel the groups that can leave are the earlier ones without it. Strict: those are a prefix of what can leave, and more can exactly when the group stood first after the ready prefix with a ready group behind it. |
| Guarantees.RunsAgree | examples/tito_example.py:85-171 | The answers of the scanning discipline and of the package's discipline are equal over a whole run exactly when no call of it diverges. |
| TwoPolicies.StepAhead | tito/tito.py:9-17 | One call on a strict and a relaxed queue keeps the relaxed one ahead exactly when it is not an admission that only the relaxed queue accepts. |
| TwoPolicies.AlignedIff | tito/tito.py:9-17 | On one trace, the two queues at every moment know the same groups, with the relaxed line the strict line less groups already released and every strict release already made, exactly when no admission splits the two. |
| TwoPolicies.RelaxedNeverLater | tito/tito.py:9-17 | When no admission splits the two, the relaxed queue accepts all that the strict queue accepts, and at every moment each such group has left the relaxed queue if it has left the strict one. |
| TwoPolicies.NumbersAgree | tito/tito.py:271-272 | While the two are aligned, a group that the strict queue accepts has the same number in both. |
| TwoPolicies.AcceptedTogether | tito/tito.py:9-17 | On a trace whose admissions the strict queue all accepts, none splits the two, and nobody is ever late. |
| Lateness.SplitDelays | tito/tito.py:9-17 | After any split, a given continuation without another split makes a group late: both queues accept it, the strict queue releases it, and the relaxed queue still holds it. |
| Lateness.SplitIff | tito/tito.py:252-282 | On a trace without splits, an admission splits the two exactly when it can be followed, without another split, by calls after which somebody is late. |
| Lateness.UnsplitIff | tito/tito.py:9-17 | No admission of a trace splits the two exactly when nothing that could follow any part of it, without a further split, makes anybody late. |
| Examples.OvertakingSplits | tito/tito.py:252-270 | A run of five calls on which an admission splits the two policies and they stop being aligned, with nobody late so far. |
| Examples.DelayedIsLate | tito/tito.py:252-270 | A run of eleven calls on which both queues accept the same newcomer, the strict queue releases it, and the relaxed queue, having readmitted another group, still holds it. |
| Guarantees.UnreadyLeaves | tito/tito.py:319-345 | A waiting group that is not ready leaves with a call exactly when the call clears the queue or cancels that group's id. |
| Examples.ClearTakesUnready | tito/tito.py:335-345 | Clearing hands out a group none of whose members was marked. |
| Examples.CancelMakesWay | tito/tito.py:319-333 | Under strict order nobody can leave, and after the head is cancelled the ready group behind it can. |
| Examples.BareStringDiverges | tito/tito.py:70-74 | Admitting a bare string is refused by the package and accepted by the scan queue. |
| Examples.NoneIdDiverges | examples/tito_example.py:114-119 | After admitting a group as None, marking its member succeeds in the package and fails in the scan queue. |
| ReadyIndex.StepRefines | tito/tito.py:284-417 | Every operation on the lazily cleaned index keeps exactness and the cost bounds, and changes the line and answers exactly as the discipline says. |
| ReadyIndex.RunRefines | tito/tito.py:248-417 | From an empty queue, over every run under either policy, the indexed queue gives the answers of the discipline and its invariant holds. |
| ReadyIndex.IndexedMatchesScan | examples/tito_example.py:71-171 | The heap-indexed and the scanning queue give the same answers over a run exactly when it admits no bare string and looks up no member of a group admitted as None. |
| ReadyIndex.IndexExact | tito/tito.py:390-417 | In every reachable state the ready table is exactly the ready waiting groups, the heap holds them all and has at most twice as many plus eight entries; under strict order both are empty. |
| ReadyIndex.AmortisedCost | tito/tito.py:355-417 | Stale entries popped, entries rewritten by compaction and stale entries still there are together at most the ready groups removed one at a time, and those at most the groups admitted. |
| ReadyIndex.CompactExact | tito/tito.py:414-417 | Up to twice the live entries plus eight compaction changes nothing; beyond, it leaves exactly the live entries, and one rewritten entry is counted for each. |
| ReadyIndex.SettleExact | tito/tito.py:355-362 | Cleaning takes out exactly the entries older than every live one, and one popped entry is counted for each. |
| ReadyIndex.ChargedExactly | tito/tito.py:248-423 | What an admission, a look-up, a peek, a cancellation and a clearing do to heap and table, entry by entry, and what each is charged. |
| ReadyIndex.CallbackOnce | tito/tito.py:147-171 | Counting every call of the callback, over a run a group notifies the queue once if the queue is relaxed and the group was complete while it waited, and otherwise never; and each notice leads to a push, so the test for a number already in the table never turns one away. |
| ReadyIndex.NoticeIsNews | tito/tito.py:163-171 | A mark fires the callback exactly when it completes a group waiting in a relaxed queue; then the number is in neither table nor heap and enters both, and any other mark leaves both alone. |
| ReadyIndex.NoResurrection | tito/tito.py:390-405 | A number is pushed at most once, and after its group has left it is never live again and never pushed again, whatever is readmitted or marked. |
| ReadyIndex.SettleKeeps | tito/tito.py:355-362 | The lazy cleaning loop keeps the invariant, touches neither the line nor the table, and leaves a live entry on top or an empty heap. |
| ReadyIndex.RemoveRefines | tito/tito.py:398-417 | Removing a group, compaction included, keeps the invariant and takes exactly that group out of the line. |
| ReadyIndex.DrainRefines | tito/tito.py:373-381 | The release_all loop, run on the index, returns exactly what the discipline lets leave and ends within one more turn than there are waiting groups. |
| BinaryHeap.Heappush | tito/tito.py:396 | A heap stays a heap and gains exactly the element pushed, by a list of exchanges with the parent, at most log2(n + 1) of them, and exactly that many when it is the least. |
| BinaryHeap.Heappop | tito/tito.py:361 | A heap stays a heap and loses exactly its first element: the last takes its place, and at most log2(n) exchanges follow. |
| BinaryHeap.Heapify | tito/tito.py:416-417 | Any list becomes a heap with the same elements, by a list of exchanges, at most log2(n) for each of the first n/2. |
| BinaryHeap.Log2Bounds | tito/tito.py:396 | The logarithm of these bounds is the largest power of two that does not exceed its argument. |
| BinaryHeap.TopIsMin | tito/tito.py:357-360 | The first element of a heap is the least of its contents. |
| Tito.Group.constructor | tito/tito.py:98-106 | A new group has no member marked, its count is zero, and it belongs to no queue. |
| Tito.Group.Create | tito/tito.py:66-106 | A group is built exactly from a collection that is neither a bare string, empty, nor repetitive. |
| Tito.Group.IsReady | tito/tito.py:138-142 | The comparison of two counts decides whether every member has been marked. |
| Tito.Group.ReadyMembers | tito/tito.py:118-123 | The marked members in admission order, as many as the counter says. |
| Tito.Group.WaitingMembers | tito/tito.py:125-130 | The members not marked, in admission order. |
| Lists.KeepDropPartition | tito/tito.py:118-130 | Marked and unmarked members together are all members, each as often as admitted. |
| Tito.Group.MarkReady | tito/tito.py:144-171 | Called by anyone, on a waiting or departed group: marks one member, tells whether the group is whole, refuses a stranger, and leaves its queue valid and one index step further, the callback included. |
| Tito.TitoQueue.constructor | tito/tito.py:223-241 | A new queue of either policy is valid and empty. |
| Tito.TitoQueue.NoteReady | tito/tito.py:390-396 | The callback leaves a notice each time it is called, and enters the group in the ready table and the heap unless it is there. |
| Tito.TitoQueue.Admit | tito/tito.py:248-282 | Accepts exactly an admissible group, which enters at the end of the line with the next number; a refusal changes nothing and uses no number. |
| Tito.TitoQueue.MarkReady | tito/tito.py:284-293 | Marks the member in the waiting group that holds it, and refuses exactly a member that is not indexed. |
| Tito.TitoQueue.MarkGroupReady | tito/tito.py:295-306 | Marks every member of the waiting group with that id and answers True, and refuses exactly an id that is not in the dictionary. |
| Tito.TitoQueue.GroupOf | tito/tito.py:308-317 | The waiting group with that member, or None. |
| Tito.TitoQueue.Find | tito/tito.py:383-388 | The waiting group with that id, or None. |
| Tito.TitoQueue.Cancel | tito/tito.py:319-333 | Takes the waiting group with that id out of every table and returns it, and refuses exactly an id that is not in the dictionary. |
| Tito.TitoQueue.Clear | tito/tito.py:335-345 | Returns all waiting groups in arrival order and leaves every table empty and every callback cut. |
| Tito.TitoQueue.Peek | tito/tito.py:347-362 | The next group that would leave, at most tidying the heap. |
| Tito.TitoQueue.Release | tito/tito.py:364-371 | The next group that can leave, gone from every table, or None. |
| Tito.TitoQueue.ReleaseAll | tito/tito.py:373-381 | Every group that can leave, in order, by releasing until none can. |
| Tito.TitoQueue.Remove | tito/tito.py:398-405 | The group leaves the dictionary, the member index, the ready table and its callback at once. |
| Tito.TitoQueue.CompactReadyHeap | tito/tito.py:407-417 | Above twice the live entries plus eight the heap is rebuilt from exactly the live ones, one rewritten entry counted for each; otherwise neither heap nor counters change. |
| Tito.TitoQueue.Groups | tito/tito.py:419-423 | The waiting groups, in arrival order. |
| Tito.TitoQueue.IndexInverse | tito/tito.py:278-280 | In every valid queue the member index maps a member to an id exactly when the waiting group with that id has that member. |
| Tito.TitoQueue.ArrivalOrder | tito/tito.py:271-278 | In every valid queue the dictionary is in strictly increasing order of arrival, and each number in it is below the next. |
| Tito.TitoQueue.ReadyTable | tito/tito.py:231-235 | In every valid queue the ready table is exactly the ready groups in the dictionary, the heap is a duplicate-free heap that contains them and obeys its bound, and both are empty under strict order. |
| Tables.IndexedWithout | tito/tito.py:400-402 | Deleting a departing group's members leaves exactly the other waiting groups' members indexed. |
| Scan.ScanGroup.Create | examples/tito_example.py:20-30 | A group is built exactly from members that are neither empty nor repetitive, a bare string counting as its letters. |
| Scan.ScanGroup.MarkReady | examples/tito_example.py:52-59 | Marks one member, tells whether the group is whole, refuses a stranger; the queue stays valid. |
| Scan.ScanQueue.Admit | examples/tito_example.py:85-96 | Accepts exactly an admissible group and puts it last; a refusal changes nothing. |
| Scan.ScanQueue.MarkReady | examples/tito_example.py:98-103 | Marks as the scanning discipline says, and refuses exactly a member that is not indexed or is indexed under None. |
| Scan.ScanQueue.MarkGroupReady | examples/tito_example.py:105-112 | Marks every member of the waiting group with that id, or refuses. |
| Scan.ScanQueue.GroupOf | examples/tito_example.py:114-119 | The waiting group with that member unless its id is None. |
| Scan.ScanQueue.Peek | examples/tito_example.py:121-129 | Scanning in arrival order, stopping at the head under strict order, finds the group that would leave next. |
| Scan.ScanQueue.Release | examples/tito_example.py:131-137 | That group, gone from the line, or None. |
| Scan.ScanQueue.ReleaseAll | examples/tito_example.py:139-146 | Every group that can leave, in order. |
| Scan.ScanQueue.Cancel | examples/tito_example.py:148-154 | The waiting group with that id, gone from the line, or a refusal. |
| Scan.ScanQueue.Clear | examples/tito_example.py:156-161 | All waiting groups, in arrival order, and an empty line. |
| Lockstep.RunTito | tito/tito.py:208-423 | Any script of calls, direct marks on held groups included, carried out on a new `TitoQueue` object gives the answers of the index model. |
| Lockstep.RunScan | examples/tito_example.py:71-171 | The same script carried out on a new `ScanQueue` object gives the answers of the scanning discipline. |
| Lockstep.RunBoth | examples/tito_example.py:71-171 | Both queues, given the same script, answer alike exactly when the script meets neither of the two differences. |
| Protocol.AdmitFollows | tito/tito.py:257-282 | Each write of an admission under the lock leaves memory as far along as its position says, and the last leaves the sequential result. |
| Protocol.MarkFollows | tito/tito.py:150-171 | The same for the flag, the counter, the ready table and the heap push of a mark. |
| Protocol.RemoveFollows | tito/tito.py:347-417 | The same for peek, release, release_all and cancel, with the head asked under its own lock, and the pop from the ready table and the compaction apart. |
| Protocol.RemoveShape | tito/tito.py:347-381 | Every position in them is as deep in nested acquisitions as the calls of release_all, release, peek and is_ready make it. |
| Protocol.WipeFollows | tito/tito.py:337-345 | The same for clear, one callback and one table at a time. |
| Interleaving.StepGood | tito/tito.py:144-381 | Whatever thread moves next, the global invariant is kept. |
| Interleaving.Serializable | tito/tito.py:19-22 | After any schedule the finished calls, in the order they finished, form a sequential run that gives each of them its answer, and whenever the lock is free memory is exactly what that run leaves. |
| Interleaving.DonationHolds | tito/tito.py:273-277 | In every reachable state every published group carries the queue's lock, whoever is past taking it owns it at exactly the depth its position calls for, nobody else is inside, and the lock is free exactly when nobody is. |
| Interleaving.InnerBlocks | tito/tito.py:104-106 | In every reachable state an acquisition inside another, of the queue's lock or of the one a group carries, is granted at once, one level deeper, and giving it back returns to the level before. |
| ProgramOrder.ProgramOrder | tito/tito.py:19-22 | After any schedule the finished calls of each thread, in the order of the log, followed by the call it has in progress, are exactly the calls the schedule had it make, in order. |
| Interleaving.DepthsInFigures | tito/tito.py:347-381 | How often the lock is held at work, in figures: up to four times where release_all asks the head whether it is ready. |
| Interleaving.NobodyGetsItTwice | tito/tito.py:19-22 | Under any schedule no two calls, of one thread or of several, are given the same group. |
| Interleaving.NoDeadlock | tito/tito.py:104-106 | In every reachable state with a call in progress some thread can move. |
| Progress.HolderFalls | tito/tito.py:257-381 | Each step of the thread that holds the lock frees it or leaves that thread with strictly less to do. |
| Progress.WorkInFigures | tito/tito.py:257-381 | How many steps a call has left when it has just taken the lock, in figures, by the sizes of its group, the line and the heap. |
| Progress.OthersWait | tito/tito.py:257-381 | No step of another thread moves the holder or changes shared memory. |
| Progress.LockComesFree | tito/tito.py:257-381 | From every reachable state, once the holder has had as many turns as it has work left, however the others are scheduled in between, the lock has been free. |
| BoundedArray.CopyName | examples/tito_example.c:51-60 | The bounded copy terminates the buffer and stores as much of the name as fits. |
| BoundedArray.StoredFaithful | examples/tito_example.c:47-60 | A name of at most 31 letters is stored exactly and of a longer one the first 31; two names share a stored form exactly when they are equal or agree on the whole part that fits. |
| BoundedArray.GroupIsReady | examples/tito_example.c:74-76 | The two counters decide whether every member is marked. |
| BoundedArray.IndexIn | examples/tito_example.c:78-85 | The position of a member, or -1 exactly for a stranger. |
| BoundedArray.GroupMarkReady | examples/tito_example.c:89-101 | Marks one member and reports 1, 0 or -1 as the group is whole, not whole, or without that member. |
| BoundedArray.HasDuplicates | examples/tito_example.c:140-148 | The nested scan finds a repeat exactly when there is one. |
| BoundedArray.FitsInFigures | examples/tito_example.c:10-12 | What fits, in figures: an id and names of at most 31 letters, at most 8 members, and at most 15 groups waiting. |
| BoundedArray.Fill | examples/tito_example.c:179-187 | A reused slot holds exactly the new id and names, none marked. |
| BoundedArray.MarkAll | examples/tito_example.c:209-212 | Every flag of the slot is set and the counter is its size. |
| BoundedArray.CQueue.constructor | examples/tito_example.c:41-45 | An initialised queue is empty whatever its array held. |
| BoundedArray.CQueue.FindSlot | examples/tito_example.c:153-158 | The slot of the waiting group with that id, or -1 exactly when there is none. |
| BoundedArray.CQueue.GroupOf | examples/tito_example.c:103-110 | The slot of the waiting group with that member, or -1 exactly when there is none. |
| BoundedArray.CQueue.Admit | examples/tito_example.c:122-188 | Accepts exactly an admissible group that fits the fixed sizes, as the last group; a refusal changes nothing. |
| BoundedArray.CQueue.MarkReady | examples/tito_example.c:192-200 | Marks as the discipline says and answers 1, 0 or -1. |
| BoundedArray.CQueue.MarkSlot | examples/tito_example.c:89-101 | Marking through a pointer into a slot is a direct mark on the group that is in the slot now. |
| BoundedArray.CQueue.MarkGroupReady | examples/tito_example.c:204-218 | Marks a whole group and answers 0, or refuses with -1, as the discipline says. |
| BoundedArray.CQueue.PeekIndex | examples/tito_example.c:221-235 | The slot of the group that would leave next, or -1 exactly when none can. |
| BoundedArray.CQueue.RemoveAt | examples/tito_example.c:244-249 | Shifting the tail down removes exactly that group from the line. |
| BoundedArray.CQueue.ShiftDown | examples/tito_example.c:245-247 | The slots are the old ones without one, in order. |
| BoundedArray.CQueue.Release | examples/tito_example.c:253-262 | A copy of the next group that can leave, gone from the line, or nothing. |
| BoundedArray.CQueue.ReleaseAll | examples/tito_example.c:265-272 | The first groups of what can leave, in order, all of them or as many as the capacity allows; exactly those are gone. |
| BoundedArray.CQueue.Cancel | examples/tito_example.c:276-286 | A copy of the waiting group with that id, gone from the line, or a refusal. |
| BoundedArray.CQueue.Clear | examples/tito_example.c:289-302 | All waiting groups in order and an empty line, or -1 and no change exactly when they would not fit. |
| BoundedArray.CQueue.StoredOnce | examples/tito_example.c:140-177 | In every valid queue no id and no member name is stored twice. |
| BoundedArray.FollowsScan | examples/tito_example.c:122-302 | On calls that can be written in C the scanning discipline and the package's discipline coincide, call by call. |
| BoundedRuns.AnswersAgree | examples/tito_example.c:130-152 | Over a run, the scanning discipline with the fixed sizes enforced answers like the scanning discipline exactly when no admission overflows them. |
| BoundedRuns.ScanAnswerAt | examples/tito_example.py:85-161 | The answers compared are those of the scanning discipline, call by call. |
| BoundedRuns.ShowTells | examples/tito_example.c:103-302 | Two answers look alike exactly when they are of one kind and name groups that look alike. |
| BoundedRuns.CallC | examples/tito_example.c:103-302 | Each call on a C queue takes the step and shows the groups that the discipline does, refusing besides only an admission that overflows. |
| BoundedRuns.RunC | examples/tito_example.c:103-302 | Any script carried out on a new C queue, in memory of any contents, answers like the scanning discipline over the whole run exactly when no admission overflows the fixed sizes: no accepted id or name has 32 letters, no accepted group has 9 members, and none comes while 16 wait. |
| BoundedRuns.PointerHolds | examples/tito_example.c:244-249 | After any run a pointer into a slot denotes the group it was obtained for exactly when neither that group nor one in an earlier slot has departed. |
| BoundedRuns.LongIdOverflows | examples/tito_example.c:47-49 | An id one letter too long is an admission that overflows. |

## Left out

- Weak references and garbage collection (`tito/tito.py:196-205`): the callback is a link to the queue, and the queue is assumed alive.
- Hashability and user-defined equality (`tito/tito.py:40-46`, `81-87`, `253-256`): ids and members are values of types with equality; unhashable input is not modelled.
- Error messages, `__repr__`, the C formatting helpers and error buffer, the demos: presentation. A refusal is a `Failure`, -1 or `None`, without its text or the type of its exception.
- The lock-free reads `__len__` and `__contains__` (`tito/tito.py:425-433`): they can see an admission half done, so they are not among the calls shown serializable.
- Group's `ready_members`, `waiting_members`, `ready_count` and the queue's `groups` are modelled in `Tito` but are not calls of the interleaving model.
- In `Threads` the heap is the set of its numbers, so a push, a pop and the assignment of the rebuilt list are one write each, and heapify, which only permutes, is no write; deleting a group from the dictionary is one write. No scheduler is modelled: whether a thread gets its turns, and which waiting thread gets the lock next, is left open.
- The lock of `__repr__` and of the read-only properties is not modelled, nor the lock that a group has before it is published, which nobody else can see.
- `heapq` itself: `BinaryHeap` is a heap of our own with the same contract, and the exchanges counted are its own. `list(self._ready_groups)` is taken in any order, since heapify follows.
- The ordered dictionary is a pair of fields, key order and entries; its own implementation is not part of this model.
- Private steps of one source method are sometimes separate methods (`JoinLine`, `Publish`, `LeaveLine`, `Unlink`, `Retire`), each with the contract its part of the body needs.
- A script for `RunC` has no mark through a held `Group *`; what such a pointer denotes, and what a mark through it does, is said by `PointerHolds` and `MarkSlot`. Stale copies beyond the last slot in use are not modelled. The names `tito_len`, `tito_contains` and `tito_peek` are one-line wrappers of what is modelled.
- In C, `int` counters stay below the array sizes, so overflow does not arise; the width of `char` is not modelled.
- The other eleven language examples, the tests and `docs/` repeat the scanning queue or describe it.
