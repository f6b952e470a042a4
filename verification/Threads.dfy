/** The lock protocol (tito/tito.py), one shared write at a time.

Any number of threads call the queue and the groups they hold. A call is a sequence of
micro-steps; any thread may take the next one. A group is built outside the lock, with a lock
of its own; admission swaps that lock for the queue's before the group can be seen, so marking
a group, or asking whether it is ready, takes whatever lock the group carries. Every step below
reads or writes shared memory without asking whether the lock is held: that nobody interferes is
what is proved. Every `with` block of the source is a step that takes a lock and a step that gives
it back, also where one block runs inside another. */
module Threads {
  import opened Lists
  import opened Discipline
  import opened Guarantees
  import opened ReadyIndex
  import opened Tables

  datatype LockId = QueueLock | OwnLock(maker: nat)

  /** A group that only its maker can see. */
  datatype Private<I, M> = Private(id: Option<I>, members: seq<M>, seqno: nat, lock: LockId)

  /** Shared memory: the line with its flags and its readiness index, and, group by group, the
      counter, the lock and the callback; the member index; the sequence counter. */
  datatype Memory<I, M> = Memory(
    ix: Index<I, M>,
    counts: seq<nat>,
    locks: seq<LockId>,
    linked: set<nat>,
    index: map<M, Option<I>>,
    next: nat)

  /** How a `with` block names its lock: as the queue's, or as the one a group carries. */
  datatype Via = Own | Carried(s: nat)

  /** Where a call has got to. */
  datatype Pc<I, M> =
    | Start
    // admit
    | Built(g: Private<I, M>)
    | Checking(g: Private<I, M>)
    | Numbered(g: Private<I, M>)
    | Donated(g: Private<I, M>)
    | Indexing(s: nat, k: nat)
    | Linking(s: nat)
    // any other call, the lock just taken
    | Seek
    // an inner `with` block opens or closes
    | Taking(via: Via, next: Pc<I, M>)
    | Giving(via: Via, next: Pc<I, M>)
    // group_of inside mark_ready
    | Looking(m: M)
    // marking rest[0] in group s
    | Enter(s: nat, rest: seq<M>)
    | Flagging(s: nat, rest: seq<M>)
    | Counting(s: nat, rest: seq<M>)
    | Testing(s: nat, rest: seq<M>)
    | Noting(s: nat, rest: seq<M>)
    | Pushing(s: nat, rest: seq<M>)
    | Leave(s: nat, rest: seq<M>, out: Outcome)
    // removing group s; `acc` has been released before it
    | Peeking(acc: seq<nat>)
    | Asking(s: nat, acc: seq<nat>)
    | Delist(s: nat, acc: seq<nat>)
    | Deindex(s: nat, k: nat, acc: seq<nat>)
    | Unlink(s: nat, acc: seq<nat>)
    | Retire(s: nat, acc: seq<nat>)
    | Compacting(s: nat, acc: seq<nat>)
    // clear
    | Cutting(k: nat, line: seq<nat>)
    | Wiping(stage: nat, line: seq<nat>)
    | Unlocking(out: Outcome)

  /** A call in progress; `cur` is what the queue was worth when the call last stood between two
      whole operations. */
  datatype Task<I, M> = Task(op: Op<I, M>, pc: Pc<I, M>, cur: Index<I, M>)

  ghost predicate Removing<I, M>(pc: Pc<I, M>) {
    pc.Peeking? || pc.Asking? || pc.Delist? || pc.Deindex? || pc.Unlink? || pc.Retire? || pc.Compacting?
  }

  ghost predicate Marking<I, M>(pc: Pc<I, M>) {
    pc.Flagging? || pc.Counting? || pc.Testing? || pc.Noting? || pc.Pushing?
  }

  ghost predicate Clearing<I, M>(pc: Pc<I, M>) {
    pc.Cutting? || pc.Wiping?
  }

  ghost predicate Admitting<I, M>(pc: Pc<I, M>) {
    pc.Checking? || pc.Numbered? || pc.Donated? || pc.Indexing? || pc.Linking?
  }

  // ---------- nested blocks ----------

  /** How often the call holds the queue's lock. */
  ghost function DepthAt<I, M>(op: Op<I, M>, pc: Pc<I, M>): nat {
    match pc
    case Start => 0
    case Built(_) => 0
    case Taking(_, next) => if DepthAt(op, next) > 0 then DepthAt(op, next) - 1 else 0
    case Giving(_, next) => DepthAt(op, next) + 1
    case Looking(_) => 2
    case Enter(_, _) => if op.MarkHeld? then 0 else 1
    case Flagging(_, _) => if op.MarkHeld? then 1 else 2
    case Counting(_, _) => if op.MarkHeld? then 1 else 2
    case Testing(_, _) => if op.MarkHeld? then 1 else 2
    case Noting(_, _) => if op.MarkHeld? then 1 else 2
    case Pushing(_, _) => if op.MarkHeld? then 1 else 2
    case Leave(_, _, _) => if op.MarkHeld? then 1 else 2
    case Peeking(_) => PeekDepth(op)
    case Asking(_, _) => PeekDepth(op) + 1
    case Delist(_, _) => RemoveDepth(op)
    case Deindex(_, _, _) => RemoveDepth(op)
    case Unlink(_, _) => RemoveDepth(op)
    case Retire(_, _) => RemoveDepth(op)
    case Compacting(_, _) => RemoveDepth(op)
    case _ => 1
  }

  /** release_all calls release, and release calls peek, each under the lock already held. */
  ghost function PeekDepth<I, M>(op: Op<I, M>): nat {
    if op.ReleaseAll? then 3 else if op.Release? then 2 else 1
  }

  ghost function RemoveDepth<I, M>(op: Op<I, M>): nat {
    if op.ReleaseAll? then 2 else 1
  }

  /** The work the call comes to once the blocks in between have been opened and closed. */
  ghost function Goal<I, M>(pc: Pc<I, M>): Pc<I, M> {
    match pc
    case Taking(_, next) => Goal(next)
    case Giving(_, next) => Goal(next)
    case _ => pc
  }

  /** Every block on the way is inside another, and names a lock that exists. */
  ghost predicate Nested<I, M>(op: Op<I, M>, pc: Pc<I, M>, groups: nat) {
    match pc
    case Taking(via, next) =>
      !next.Seek? && (via.Carried? ==> via.s < groups) && DepthAt(op, next) >= 2 && Nested(op, next, groups)
    case Giving(via, next) =>
      !next.Seek? && (via.Carried? ==> via.s < groups) && DepthAt(op, next) >= 1 && Nested(op, next, groups)
    case _ => true
  }

  // ---------- memory between operations ----------

  ghost function Queued<I(!new), M(!new)>(c: State<I, M>): set<M> {
    set s, m | s in c.waiting && s < |c.all| && m in c.all[s].members :: m
  }

  ghost function IndexOf<I(!new), M(!new)>(c: State<I, M>): map<M, Option<I>> {
    map m | m in Queued(c) && c.Holder(m).Some? && c.Holder(m).value < |c.all| :: c.all[c.Holder(m).value].id
  }

  /** Memory when nobody is inside: every redundant part agrees with the line. */
  ghost function Calm<I(!new), M(!new)>(ix: Index<I, M>): Memory<I, M> {
    var c := ix.core;
    Memory(ix,
           seq(|c.all|, s requires 0 <= s < |c.all| => |c.all[s].marked|),
           seq(|c.all|, s => QueueLock),
           if c.strict then {} else Elements(c.waiting),
           IndexOf(c),
           |c.all|)
  }

  // ---------- micro-steps ----------

  ghost function Lookup<I(!new), M(!new)>(mem: Memory<I, M>, m: M): Option<nat> {
    if m in mem.index then mem.ix.core.Find(mem.index[m]) else None
  }

  /** The body of admit under the lock. */
  ghost function AdmitMicro<I(!new), M(!new)>(pc: Pc<I, M>, mem: Memory<I, M>): (Pc<I, M>, Memory<I, M>) {
    match pc
    case Checking(g) =>
      if mem.ix.core.Find(g.id).Some? || exists m :: m in g.members && m in mem.index then (Unlocking(Rejected), mem)
      else (Numbered(g.(seqno := mem.next)), mem.(next := mem.next + 1))
    case Numbered(g) => (Donated(g.(lock := QueueLock)), mem)
    case Donated(g) =>
      (Indexing(g.seqno, 0),
       mem.(ix := mem.ix.(core := mem.ix.core.Enter(g.id, g.members)),
            counts := mem.counts + [0], locks := mem.locks + [g.lock]))
    case Indexing(s, k) =>
      if s < |mem.ix.core.all| && k < |mem.ix.core.all[s].members| then
        (Indexing(s, k + 1), mem.(index := mem.index[mem.ix.core.all[s].members[k] := mem.ix.core.all[s].id]))
      else (Linking(s), mem)
    case Linking(s) =>
      (Unlocking(Maybe(Some(s))), if mem.ix.core.strict then mem else mem.(linked := mem.linked + {s}))
    case _ => (pc, mem)
  }

  /** The body of Group.mark_ready under the group's lock. */
  ghost function MarkMicro<I(!new), M(!new)>(pc: Pc<I, M>, mem: Memory<I, M>): (Pc<I, M>, Memory<I, M>) {
    var c := mem.ix.core;
    match pc
    case Flagging(s, rest) =>
      if rest == [] || s >= |c.all| || s >= |mem.counts| then (pc, mem)
      else if rest[0] !in c.all[s].members then (Leave(s, rest, Rejected), mem)
      else if rest[0] in c.all[s].marked then (Leave(s, rest, Flag(mem.counts[s] == |c.all[s].members|)), mem)
      else (Counting(s, rest), mem.(ix := mem.ix.(core := c.Mark(s, rest[0]))))
    case Counting(s, rest) =>
      if s >= |mem.counts| then (pc, mem)
      else (Testing(s, rest), mem.(counts := mem.counts[s := mem.counts[s] + 1]))
    case Testing(s, rest) =>
      if s >= |c.all| || s >= |mem.counts| then (pc, mem)
      else if mem.counts[s] != |c.all[s].members| then (Leave(s, rest, Flag(false)), mem)
      else if s !in mem.linked then (Leave(s, rest, Flag(true)), mem)
      else (Noting(s, rest), mem.(ix := mem.ix.(notices := mem.ix.notices + [s])))
    case Noting(s, rest) =>
      if s in mem.ix.live then (Leave(s, rest, Flag(true)), mem)
      else (Pushing(s, rest), mem.(ix := mem.ix.(live := mem.ix.live + {s})))
    case Pushing(s, rest) =>
      (Leave(s, rest, Flag(true)),
       mem.(ix := mem.ix.(heap := mem.ix.heap + {s}, pushes := mem.ix.pushes + [s])))
    case _ => (pc, mem)
  }

  /** What follows the answer of peek: peek, release and release_all each close the blocks that
      are theirs. */
  ghost function Answered<I, M>(op: Op<I, M>, next: Option<nat>, acc: seq<nat>): Pc<I, M> {
    if op.Peek? then Unlocking(Maybe(next))
    else if next.Some? then Giving(Own, Delist(next.value, acc))
    else if op.Release? then Giving(Own, Unlocking(Maybe(None)))
    else Giving(Own, Giving(Own, Unlocking(Many(acc))))
  }

  /** Another turn of release_all opens the blocks of release and of peek. */
  ghost function Again<I, M>(acc: seq<nat>): Pc<I, M> {
    Taking(Own, Taking(Own, Peeking(acc)))
  }

  /** What follows a removal. */
  ghost function Removed<I, M>(task: Task<I, M>, s: nat, acc: seq<nat>, ix: Index<I, M>): Task<I, M> {
    if task.op.ReleaseAll? then task.(pc := Giving(Own, Again(acc + [s])), cur := ix)
    else task.(pc := Unlocking(Maybe(Some(s))))
  }

  ghost function HowOf<I, M>(op: Op<I, M>): How {
    if op.Cancel? then Withdrawn else Left
  }

  /** The bodies of peek, release, release_all and cancel under the lock. */
  ghost function RemoveMicro<I(!new), M(!new)>(task: Task<I, M>, mem: Memory<I, M>): (Task<I, M>, Memory<I, M>) {
    var ix := mem.ix;
    match task.pc
    case Peeking(acc) =>
      if ix.core.strict then
        if ix.core.waiting == [] then (task.(pc := Answered(task.op, None, acc)), mem)
        else var s := ix.core.waiting[0]; (task.(pc := Taking(Carried(s), Asking(s, acc))), mem)
      else if ix.heap != {} && Min(ix.heap) !in ix.live then
        (task, mem.(ix := ix.(heap := ix.heap - {Min(ix.heap)}, pops := ix.pops + 1)))
      else
        (task.(pc := Answered(task.op, if ix.heap == {} then None else Some(Min(ix.heap)), acc)), mem)
    case Asking(s, acc) =>
      if s < |ix.core.all| && s < |mem.counts| then
        var next := if mem.counts[s] == |ix.core.all[s].members| then Some(s) else None;
        (task.(pc := Giving(Carried(s), Answered(task.op, next, acc))), mem)
      else (task, mem)
    case Delist(s, acc) =>
      (task.(pc := Deindex(s, 0, acc)), mem.(ix := ix.(core := ix.core.Depart([s], HowOf(task.op)))))
    case Deindex(s, k, acc) =>
      if s < |ix.core.all| && k < |ix.core.all[s].members| then
        (task.(pc := Deindex(s, k + 1, acc)), mem.(index := mem.index - {ix.core.all[s].members[k]}))
      else (task.(pc := Unlink(s, acc)), mem)
    case Unlink(s, acc) => (task.(pc := Retire(s, acc)), mem.(linked := mem.linked - {s}))
    case Retire(s, acc) =>
      if s in ix.live then
        (task.(pc := Compacting(s, acc)), mem.(ix := ix.(live := ix.live - {s}, retired := ix.retired + 1)))
      else (Removed(task, s, acc, ix), mem)
    case Compacting(s, acc) => (Removed(task, s, acc, Compact(ix)), mem.(ix := Compact(ix)))
    case _ => (task, mem)
  }

  /** The body of clear under the lock. */
  ghost function WipeMicro<I(!new), M(!new)>(pc: Pc<I, M>, mem: Memory<I, M>): (Pc<I, M>, Memory<I, M>) {
    match pc
    case Cutting(k, line) =>
      if k < |line| then (Cutting(k + 1, line), mem.(linked := mem.linked - {line[k]}))
      else (Wiping(0, line), mem)
    case Wiping(stage, line) =>
      if stage == 0 then (Wiping(1, line), mem.(ix := mem.ix.(core := mem.ix.core.Depart(line, Flushed))))
      else if stage == 1 then (Wiping(2, line), mem.(index := map[]))
      else if stage == 2 then (Wiping(3, line), mem.(ix := mem.ix.(live := {})))
      else (Unlocking(Many(line)), mem.(ix := mem.ix.(heap := {})))
    case _ => (pc, mem)
  }

  /** The first look after taking the queue's lock. */
  ghost function SeekMicro<I(!new), M(!new)>(op: Op<I, M>, mem: Memory<I, M>): Pc<I, M> {
    match op
    case MarkReady(m) => Taking(Own, Looking(m))
    case MarkGroup(id) =>
      var s := mem.ix.core.Find(id);
      if s.None? || s.value >= |mem.ix.core.all| then Unlocking(Rejected)
      else Enter(s.value, mem.ix.core.all[s.value].members)
    case GroupOf(m) => Unlocking(Maybe(Lookup(mem, m)))
    case Cancel(id) =>
      var s := mem.ix.core.Find(id);
      if s.None? then Unlocking(Rejected) else Delist(s.value, [])
    case Clear => Cutting(0, mem.ix.core.waiting)
    case Release => Taking(Own, Peeking([]))
    case ReleaseAll => Again([])
    case _ => Peeking([])
  }

  /** The body of group_of inside mark_ready. */
  ghost function LookMicro<I(!new), M(!new)>(m: M, mem: Memory<I, M>): Pc<I, M> {
    var s := Lookup(mem, m);
    Giving(Own, if s.None? then Unlocking(Rejected) else Enter(s.value, [m]))
  }

  // ---------- calm memory ----------

  lemma IndexOfIndexed<I(!new), M(!new)>(c: State<I, M>)
    requires WellFormed(c)
    ensures Indexed(IndexOf(c), c)
  {
    forall m | c.Holder(m).Some? ensures m in Queued(c) && c.Holder(m).value < |c.all| {
      assert c.Holder(m).value in c.WithMember(m);
    }
  }

  /** An index that agrees with the line is the index of calm memory. */
  lemma IndexOfUnique<I(!new), M(!new)>(index: map<M, Option<I>>, c: State<I, M>)
    requires WellFormed(c) && Indexed(index, c)
    ensures index == IndexOf(c)
  {
    hide WellFormed, IndexOf, First;
    IndexOfIndexed(c);
    assert forall m :: m in index <==> m in IndexOf(c);
  }

  lemma CalmFinds<I(!new), M(!new)>(ix: Index<I, M>, m: M)
    requires Inv(ix)
    ensures m in Calm(ix).index <==> ix.core.Holder(m).Some?
    ensures Lookup(Calm(ix), m) == ix.core.Holder(m)
  {
    IndexOfIndexed(ix.core);
    if ix.core.Holder(m).Some? {
      FindIs(ix.core, ix.core.Holder(m).value);
    }
  }

  lemma CalmEnter<I(!new), M(!new)>(ix: Index<I, M>, id: Option<I>, items: seq<M>)
    requires Inv(ix) && ix.core.CanAdmit(id, items)
    ensures var n, calm := |ix.core.all|, Calm(ix);
      Calm(ix.(core := ix.core.Enter(id, items))) ==
      Memory(ix.(core := ix.core.Enter(id, items)), calm.counts + [0], calm.locks + [QueueLock],
             if ix.core.strict then {} else calm.linked + {n},
             calm.index + (map m | m in Elements(items) :: id), n + 1)
  {
    hide WellFormed, Exact, Paid, State.CanAdmit, Indexed, IndexOf;
    var c' := ix.core.Enter(id, items);
    IndexOfIndexed(ix.core);
    IndexedWith(IndexOf(ix.core), ix.core, id, items);
    EnterKeeps(ix.core, id, items);
    IndexOfUnique(IndexOf(ix.core) + (map m | m in Elements(items) :: id), c');
    var after := Calm(ix.(core := c'));
    assert after.counts == Calm(ix).counts + [0];
    assert after.locks == Calm(ix).locks + [QueueLock];
    assert Elements(c'.waiting) == Elements(ix.core.waiting) + {|ix.core.all|};
  }

  lemma CalmMark<I(!new), M(!new)>(ix: Index<I, M>, s: nat, m: M)
    requires Inv(ix) && s < |ix.core.all| && m in ix.core.all[s].members && m !in ix.core.all[s].marked
    ensures var calm := Calm(ix);
      Calm(ix.(core := ix.core.Mark(s, m))) ==
      calm.(ix := ix.(core := ix.core.Mark(s, m)), counts := calm.counts[s := calm.counts[s] + 1])
  {
    var c' := ix.core.Mark(s, m);
    IndexOfIndexed(ix.core);
    assert forall x :: c'.WithMember(x) == ix.core.WithMember(x);
    assert Indexed(IndexOf(ix.core), c');
    RemarkKeeps(ix.core, s, ix.core.all[s].marked + {m});
    IndexOfUnique(IndexOf(ix.core), c');
    var after := Calm(ix.(core := c'));
    assert after.counts == Calm(ix).counts[s := Calm(ix).counts[s] + 1];
    assert after.locks == Calm(ix).locks;
  }

  lemma CalmCount<I(!new), M(!new)>(ix: Index<I, M>, s: nat)
    requires Inv(ix) && s < |ix.core.all|
    ensures Calm(ix).counts[s] == |ix.core.all[s].members| <==> ix.core.all[s].Ready()
  {
    assert ix.core.all[s].Valid();
    FullCount(ix.core.all[s].members, ix.core.all[s].marked);
  }

  lemma CalmDepart<I(!new), M(!new)>(ix: Index<I, M>, s: nat, how: How)
    requires Inv(ix) && s in ix.core.waiting && WellFormed(ix.core.Depart([s], how))
    ensures var calm := Calm(ix);
      Calm(ix.(core := ix.core.Depart([s], how))) ==
      calm.(ix := ix.(core := ix.core.Depart([s], how)),
            index := calm.index - Elements(ix.core.all[s].members), linked := calm.linked - {s})
  {
    var c' := ix.core.Depart([s], how);
    IndexOfIndexed(ix.core);
    IndexedWithout(IndexOf(ix.core), ix.core, s, how);
    IndexOfUnique(IndexOf(ix.core) - Elements(ix.core.all[s].members), c');
    var after := Calm(ix.(core := c'));
    assert after.counts == Calm(ix).counts && after.locks == Calm(ix).locks;
    assert Elements(c'.waiting) == Elements(ix.core.waiting) - {s};
  }

  /** Calm memory depends on the index only through the line. */
  lemma CalmSame<I(!new), M(!new)>(ix: Index<I, M>, ix': Index<I, M>)
    requires ix'.core == ix.core
    ensures Calm(ix') == Calm(ix).(ix := ix')
  {
  }
}
