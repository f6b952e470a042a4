/** What shared memory is worth at every point of a call, while its thread holds the lock.

`base` is the queue before the call and `cur` the queue when the call last stood between two
whole operations; each predicate says exactly how far memory has drifted from them, and each
lemma that one micro-step follows the script, up to the sequential result of the call. */
module Protocol {
  import opened Lists
  import opened Discipline
  import opened Guarantees
  import opened ReadyIndex
  import opened Threads

  /** The call is over but for the lock: memory is calm and worth the sequential result. */
  ghost predicate Finished<I(!new), M(!new)>(op: Op<I, M>, out: Outcome, base: Index<I, M>, mem: Memory<I, M>) {
    mem == Calm(IndexStep(base, op).0) && out == IndexStep(base, op).1
  }

  // ---------- admit ----------

  /** A group checked on its own, as admit has it before the lock. */
  ghost predicate Made<I(!new), M(!new)>(op: Op<I, M>, g: Private<I, M>) {
    && op.Admit? && op.members.Items? && op.members.items != [] && Distinct(op.members.items)
    && g.id == op.id && g.members == op.members.items
  }

  /** The group is in the line; `done` are its members indexed so far. */
  ghost function Entered<I(!new), M(!new)>(base: Index<I, M>, id: Option<I>, items: seq<M>,
                                           done: seq<M>): Memory<I, M> {
    var calm := Calm(base);
    Memory(base.(core := base.core.Enter(id, items)), calm.counts + [0], calm.locks + [QueueLock], calm.linked,
           Added(calm.index, id, done), |base.core.all| + 1)
  }

  ghost predicate InAdmit<I(!new), M(!new)>(op: Op<I, M>, pc: Pc<I, M>, base: Index<I, M>, mem: Memory<I, M>) {
    && op.Admit? && op.members.Items?
    && match pc
       case Checking(g) => Made(op, g) && mem == Calm(base)
       case Numbered(g) =>
         Made(op, g) && base.core.CanAdmit(g.id, g.members)
         && g.seqno == |base.core.all| && mem == Calm(base).(next := |base.core.all| + 1)
       case Donated(g) =>
         Made(op, g) && base.core.CanAdmit(g.id, g.members)
         && g.seqno == |base.core.all| && g.lock == QueueLock && mem == Calm(base).(next := |base.core.all| + 1)
       case Indexing(s, k) =>
         base.core.CanAdmit(op.id, op.members.items) && s == |base.core.all| && k <= |op.members.items|
         && mem == Entered(base, op.id, op.members.items, op.members.items[..k])
       case Linking(s) =>
         base.core.CanAdmit(op.id, op.members.items) && s == |base.core.all|
         && mem == Entered(base, op.id, op.members.items, op.members.items)
       case _ => false
  }

  lemma AdmitFollows<I(!new), M(!new)>(op: Op<I, M>, pc: Pc<I, M>, base: Index<I, M>, mem: Memory<I, M>)
    requires Inv(base) && InAdmit(op, pc, base, mem)
    ensures var (pc', mem') := AdmitMicro(pc, mem);
      if pc'.Unlocking? then Finished(op, pc'.out, base, mem') else InAdmit(op, pc', base, mem')
  {
    hide Inv, Calm, Added, State.CanAdmit, IndexStep, Finished;
    match pc
    case Checking(g) => CheckFollows(op, g, base);
    case Numbered(g) =>
    case Donated(g) => PublishFollows(op, g, base);
    case Indexing(s, k) => IndexFollows(op, s, k, base);
    case Linking(s) => LinkFollows(op, s, base);
  }

  lemma CheckFollows<I(!new), M(!new)>(op: Op<I, M>, g: Private<I, M>, base: Index<I, M>)
    requires Inv(base) && InAdmit(op, Checking(g), base, Calm(base))
    ensures var (pc', mem') := AdmitMicro(Checking(g), Calm(base));
      if pc'.Unlocking? then Finished(op, pc'.out, base, mem') else InAdmit(op, pc', base, mem')
  {
    hide WellFormed, Exact, Paid, IndexOf, First;
    CheckedCanAdmit(base, g);
  }

  lemma PublishFollows<I(!new), M(!new)>(op: Op<I, M>, g: Private<I, M>, base: Index<I, M>)
    requires InAdmit(op, Donated(g), base, Calm(base).(next := |base.core.all| + 1))
    ensures var (pc', mem') := AdmitMicro(Donated(g), Calm(base).(next := |base.core.all| + 1));
      pc'.Indexing? && InAdmit(op, pc', base, mem')
  {
    hide IndexOf, Added, State.CanAdmit;
    AddedNone(Calm(base).index, op.id, op.members.items);
  }

  lemma IndexFollows<I(!new), M(!new)>(op: Op<I, M>, s: nat, k: nat, base: Index<I, M>)
    requires op.Admit? && op.members.Items? && k <= |op.members.items|
    requires InAdmit(op, Indexing(s, k), base, Entered(base, op.id, op.members.items, op.members.items[..k]))
    ensures var mem := Entered(base, op.id, op.members.items, op.members.items[..k]);
      var (pc', mem') := AdmitMicro(Indexing(s, k), mem);
      (pc'.Indexing? || pc'.Linking?) && InAdmit(op, pc', base, mem')
  {
    hide Calm, Added, State.CanAdmit;
    if k < |op.members.items| {
      AddedOne(Calm(base).index, op.id, op.members.items, k);
    } else {
      assert op.members.items[..k] == op.members.items;
    }
  }

  lemma LinkFollows<I(!new), M(!new)>(op: Op<I, M>, s: nat, base: Index<I, M>)
    requires Inv(base) && op.Admit? && op.members.Items?
    requires InAdmit(op, Linking(s), base, Entered(base, op.id, op.members.items, op.members.items))
    ensures var (pc', mem') := AdmitMicro(Linking(s), Entered(base, op.id, op.members.items, op.members.items));
      pc'.Unlocking? && Finished(op, pc'.out, base, mem')
  {
    hide WellFormed, Exact, Paid, State.CanAdmit;
    CalmEnter(base, op.id, op.members.items);
    CalmLinked(base);
  }

  lemma CalmLinked<I(!new), M(!new)>(base: Index<I, M>)
    ensures base.core.strict ==> Calm(base).linked == {}
  {
  }

  lemma CheckedCanAdmit<I(!new), M(!new)>(base: Index<I, M>, g: Private<I, M>)
    requires Inv(base) && g.members != [] && Distinct(g.members)
    ensures base.core.CanAdmit(g.id, g.members) <==>
      base.core.Find(g.id).None? && forall m | m in g.members :: m !in Calm(base).index
  {
    hide WellFormed, Exact, Paid, IndexOf, Distinct, First;
    forall m ensures m in Calm(base).index <==> base.core.Holder(m).Some? { CalmFinds(base, m); }
  }

  /** Indexing the first `k` of some members under one id. */
  ghost function Added<I(!new), M(!new)>(index: map<M, Option<I>>, id: Option<I>, done: seq<M>): map<M, Option<I>> {
    index + (map m | m in Elements(done) :: id)
  }

  lemma AddedNone<I(!new), M(!new)>(index: map<M, Option<I>>, id: Option<I>, items: seq<M>)
    ensures Added(index, id, items[..0]) == index
  {
  }

  lemma AddedOne<I(!new), M(!new)>(index: map<M, Option<I>>, id: Option<I>, items: seq<M>, k: nat)
    requires k < |items|
    ensures Added(index, id, items[..k])[items[k] := id] == Added(index, id, items[..k + 1])
  {
    assert items[..k + 1] == items[..k] + [items[k]];
    assert Elements(items[..k + 1]) == Elements(items[..k]) + {items[k]};
  }

  // ---------- marking ----------

  /** The marks still to be made take `cur` where the whole call takes `base`. */
  ghost predicate MarkPlan<I(!new), M(!new)>(op: Op<I, M>, s: nat, rest: seq<M>, cur: Index<I, M>, base: Index<I, M>) {
    && Inv(cur) && s < |cur.core.all| && rest != []
    && match op
       case MarkReady(m) => base.core.Holder(m) == Some(s) && rest == [m] && cur == base
       case MarkHeld(t, m) => t == s && rest == [m] && cur == base
       case MarkGroup(id) =>
         base.core.Find(id) == Some(s) && s < |base.core.all| == |cur.core.all|
         && EachIx(cur, s, rest) == EachIx(base, s, base.core.all[s].members)
       case _ => false
  }

  ghost predicate Fresh<I(!new), M(!new)>(cur: Index<I, M>, s: nat, m: M) {
    s < |cur.core.all| && m in cur.core.all[s].members && m !in cur.core.all[s].marked
  }

  /** This mark completes a group that carries the callback, and nobody has been told yet. */
  ghost predicate Completes<I(!new), M(!new)>(cur: Index<I, M>, s: nat, m: M) {
    Fresh(cur, s, m) && s !in cur.live && Linked(cur, s) && cur.core.Mark(s, m).all[s].Ready()
  }

  ghost function Noticed<I(!new), M(!new)>(cur: Index<I, M>, s: nat, m: M): Index<I, M>
    requires s < |cur.core.all|
  {
    cur.(core := cur.core.Mark(s, m), notices := cur.notices + [s])
  }

  ghost predicate InMark<I(!new), M(!new)>(op: Op<I, M>, pc: Pc<I, M>, cur: Index<I, M>, base: Index<I, M>,
                                           mem: Memory<I, M>) {
    match pc
    case Enter(s, rest) => MarkPlan(op, s, rest, cur, base) && mem == Calm(cur)
    case Flagging(s, rest) => MarkPlan(op, s, rest, cur, base) && mem == Calm(cur)
    case Counting(s, rest) =>
      MarkPlan(op, s, rest, cur, base) && Fresh(cur, s, rest[0])
      && mem == Calm(cur).(ix := cur.(core := cur.core.Mark(s, rest[0])))
    case Testing(s, rest) =>
      MarkPlan(op, s, rest, cur, base) && Fresh(cur, s, rest[0])
      && mem == Calm(cur.(core := cur.core.Mark(s, rest[0])))
    case Noting(s, rest) =>
      MarkPlan(op, s, rest, cur, base) && Completes(cur, s, rest[0]) && mem == Calm(Noticed(cur, s, rest[0]))
    case Pushing(s, rest) =>
      MarkPlan(op, s, rest, cur, base) && Completes(cur, s, rest[0])
      && mem == Calm(Noticed(cur, s, rest[0]).(live := cur.live + {s}))
    case Leave(s, rest, out) =>
      MarkPlan(op, s, rest, cur, base)
      && mem == Calm(HeldIx(cur, s, rest[0]).0) && out == HeldIx(cur, s, rest[0]).1
    case _ => false
  }

  lemma MarkFollows<I(!new), M(!new)>(op: Op<I, M>, pc: Pc<I, M>, cur: Index<I, M>, base: Index<I, M>,
                                      mem: Memory<I, M>)
    requires InMark(op, pc, cur, base, mem) && !pc.Enter? && !pc.Leave?
    ensures var (pc', mem') := MarkMicro(pc, mem);
      InMark(op, pc', cur, base, mem') && !pc'.Enter?
  {
    hide MarkPlan, Completes, Fresh, Calm, HeldIx, MarkMicro;
    match pc
    case Flagging(s, rest) => FlagFollows(op, pc, cur, base, mem);
    case Counting(s, rest) => CountFollows(op, pc, cur, base, mem);
    case Testing(s, rest) => TestFollows(op, pc, cur, base, mem);
    case Noting(s, rest) => NoteFollows(op, pc, cur, base, mem);
    case Pushing(s, rest) => PushFollows(op, pc, cur, base, mem);
  }

  lemma FlagFollows<I(!new), M(!new)>(op: Op<I, M>, pc: Pc<I, M>, cur: Index<I, M>, base: Index<I, M>,
                                      mem: Memory<I, M>)
    requires pc.Flagging? && InMark(op, pc, cur, base, mem)
    ensures var (pc', mem') := MarkMicro(pc, mem);
      (pc'.Leave? || pc'.Counting?) && InMark(op, pc', cur, base, mem')
  {
    hide Inv, IndexOf, EachIx;
    CalmCount(cur, pc.s);
  }

  lemma CountFollows<I(!new), M(!new)>(op: Op<I, M>, pc: Pc<I, M>, cur: Index<I, M>, base: Index<I, M>,
                                       mem: Memory<I, M>)
    requires pc.Counting? && InMark(op, pc, cur, base, mem)
    ensures var (pc', mem') := MarkMicro(pc, mem); pc'.Testing? && InMark(op, pc', cur, base, mem')
  {
    hide Inv, IndexOf, EachIx, HeldIx;
    CalmMark(cur, pc.s, pc.rest[0]);
  }

  lemma TestFollows<I(!new), M(!new)>(op: Op<I, M>, pc: Pc<I, M>, cur: Index<I, M>, base: Index<I, M>,
                                      mem: Memory<I, M>)
    requires pc.Testing? && InMark(op, pc, cur, base, mem)
    ensures var (pc', mem') := MarkMicro(pc, mem);
      (pc'.Leave? || pc'.Noting?) && InMark(op, pc', cur, base, mem')
  {
    hide Inv, IndexOf, EachIx, First;
    MarkedCount(cur, pc.s, pc.rest[0]);
  }

  /** The test for a number already in the table never finds one. */
  lemma NoteFollows<I(!new), M(!new)>(op: Op<I, M>, pc: Pc<I, M>, cur: Index<I, M>, base: Index<I, M>,
                                      mem: Memory<I, M>)
    requires pc.Noting? && InMark(op, pc, cur, base, mem)
    ensures var (pc', mem') := MarkMicro(pc, mem); pc'.Pushing? && InMark(op, pc', cur, base, mem')
  {
    hide Inv, IndexOf, EachIx, HeldIx;
  }

  lemma PushFollows<I(!new), M(!new)>(op: Op<I, M>, pc: Pc<I, M>, cur: Index<I, M>, base: Index<I, M>,
                                      mem: Memory<I, M>)
    requires pc.Pushing? && InMark(op, pc, cur, base, mem)
    ensures var (pc', mem') := MarkMicro(pc, mem); pc'.Leave? && InMark(op, pc', cur, base, mem')
  {
    hide Inv, IndexOf, EachIx;
  }

  lemma MarkedCount<I(!new), M(!new)>(cur: Index<I, M>, s: nat, m: M)
    requires Inv(cur) && Fresh(cur, s, m)
    ensures var ix' := cur.(core := cur.core.Mark(s, m));
      && s < |Calm(ix').counts|
      && (Calm(ix').counts[s] == |cur.core.all[s].members| <==> ix'.core.all[s].Ready())
    ensures s !in cur.live
    ensures s in Calm(cur.(core := cur.core.Mark(s, m))).linked <==> Linked(cur, s)
  {
    RemarkKeeps(cur.core, s, cur.core.all[s].marked + {m});
    var p := cur.core.Mark(s, m).all[s];
    FullCount(p.members, p.marked);
    assert m in Elements(cur.core.all[s].members) && s !in cur.core.ReadySet();
  }

  /** The whole-operation state after the mark, and whether members remain. */
  lemma LeaveFollows<I(!new), M(!new)>(op: Op<I, M>, s: nat, rest: seq<M>, out: Outcome,
                                       cur: Index<I, M>, base: Index<I, M>, mem: Memory<I, M>)
    requires InMark(op, Leave(s, rest, out), cur, base, mem)
    ensures op.MarkReady? || op.MarkHeld? ==> Finished(op, out, base, mem)
    ensures op.MarkGroup? && |rest| == 1 ==> Finished(op, Flag(true), base, mem)
    ensures op.MarkGroup? && |rest| > 1 ==> InMark(op, Enter(s, rest[1..]), HeldIx(cur, s, rest[0]).0, base, mem)
    ensures op.MarkReady? || op.MarkHeld? || op.MarkGroup?
  {
    hide WellFormed, Exact, Paid, IndexOf, Calm, HeldIx;
    HeldRefines(cur, s, rest[0]);
    var next := HeldIx(cur, s, rest[0]).0;
    assert EachIx(cur, s, rest) == EachIx(next, s, rest[1..]);
  }

  // ---------- removing ----------

  ghost predicate RemovePlan<I(!new), M(!new)>(op: Op<I, M>, acc: seq<nat>, cur: Index<I, M>, base: Index<I, M>) {
    && Inv(cur)
    && match op
       case Cancel(_) => cur == base && acc == []
       case Peek => cur == base && acc == []
       case Release => cur == base && acc == []
       case ReleaseAll =>
         var (last, rest) := DrainIx(cur, |cur.core.waiting| + 1);
         |cur.core.all| == |base.core.all| && DrainIx(base, |base.core.waiting| + 1) == (last, acc + rest)
       case _ => false
  }

  /** What the removal starts from: a peek, unless it is a cancellation. */
  ghost function Peeked<I, M>(op: Op<I, M>, cur: Index<I, M>): Index<I, M> {
    if op.Cancel? then cur else PeekIx(cur).0
  }

  ghost predicate Chosen<I, M>(op: Op<I, M>, s: nat, cur: Index<I, M>) {
    match op
    case Cancel(id) => cur.core.Find(id) == Some(s)
    case Release => cur.core.Next() == Some(s)
    case ReleaseAll => cur.core.Next() == Some(s)
    case _ => false
  }

  /** Group `s` is out of the line, and the first `k` of its members out of the index. */
  ghost function Gone<I(!new), M(!new)>(from: Index<I, M>, s: nat, how: How, k: nat): Memory<I, M> {
    var calm := Calm(from);
    if s < |from.core.all| && k <= |from.core.all[s].members| then
      calm.(ix := from.(core := from.core.Depart([s], how)),
            index := calm.index - Elements(from.core.all[s].members[..k]))
    else calm
  }

  /** Group `s` has left the dictionaries, and lost its callback. */
  ghost function Parted<I, M>(op: Op<I, M>, s: nat, cur: Index<I, M>): Index<I, M> {
    Peeked(op, cur).(core := cur.core.Depart([s], HowOf(op)))
  }

  /** It has left the ready table too. */
  ghost function Popped<I, M>(op: Op<I, M>, s: nat, cur: Index<I, M>): Index<I, M> {
    var left := Parted(op, s, cur);
    left.(live := left.live - {s}, retired := left.retired + 1)
  }

  ghost predicate InRemove<I(!new), M(!new)>(op: Op<I, M>, pc: Pc<I, M>, cur: Index<I, M>, base: Index<I, M>,
                                             mem: Memory<I, M>) {
    match pc
    case Peeking(acc) =>
      RemovePlan(op, acc, cur, base) && !op.Cancel?
      && mem.ix.core == cur.core && mem == Calm(mem.ix)
      && (if cur.core.strict then mem.ix == cur else Settle(mem.ix) == Settle(cur))
    case Asking(s, acc) =>
      RemovePlan(op, acc, cur, base) && !op.Cancel? && mem == Calm(cur)
      && cur.core.strict && cur.core.waiting != [] && cur.core.waiting[0] == s
    case Delist(s, acc) =>
      RemovePlan(op, acc, cur, base) && Chosen(op, s, cur) && mem == Calm(Peeked(op, cur))
    case Deindex(s, k, acc) =>
      RemovePlan(op, acc, cur, base) && Chosen(op, s, cur)
      && s < |cur.core.all| && k <= |cur.core.all[s].members| && mem == Gone(Peeked(op, cur), s, HowOf(op), k)
    case Unlink(s, acc) =>
      RemovePlan(op, acc, cur, base) && Chosen(op, s, cur)
      && s < |cur.core.all| && mem == Gone(Peeked(op, cur), s, HowOf(op), |cur.core.all[s].members|)
    case Retire(s, acc) =>
      RemovePlan(op, acc, cur, base) && Chosen(op, s, cur)
      && mem == Calm(Parted(op, s, cur))
    case Compacting(s, acc) =>
      RemovePlan(op, acc, cur, base) && Chosen(op, s, cur) && s in Peeked(op, cur).live
      && mem == Calm(Popped(op, s, cur))
    case _ => false
  }

  lemma PeekedKeeps<I, M>(op: Op<I, M>, s: nat, cur: Index<I, M>)
    requires Inv(cur) && Chosen(op, s, cur)
    ensures Inv(Peeked(op, cur)) && Peeked(op, cur).core == cur.core
    ensures s in cur.core.waiting && s < |cur.core.all|
    ensures HowOf(op).Left? ==> s in cur.core.ReadySet() && (cur.core.strict ==> s == cur.core.waiting[0])
  {
    PeekRefines(cur);
    if !op.Cancel? { NextDeparts(cur.core, s); }
  }

  lemma DelistFollows<I(!new), M(!new)>(task: Task<I, M>, base: Index<I, M>, mem: Memory<I, M>)
    requires task.pc.Delist? && InRemove(task.op, task.pc, task.cur, base, mem)
    ensures var (task', mem') := RemoveMicro(task, mem);
      task' == task.(pc := task'.pc) && task'.pc.Deindex? && InRemove(task.op, task'.pc, task.cur, base, mem')
  {
    hide Inv, IndexOf, DrainIx, PeekIx, Chosen, Drop;
    PeekedKeeps(task.op, task.pc.s, task.cur);
    var members := task.cur.core.all[task.pc.s].members;
    assert Elements(members[..0]) == {};
    assert mem.index - {} == mem.index;
  }

  lemma DeindexFollows<I(!new), M(!new)>(task: Task<I, M>, base: Index<I, M>, mem: Memory<I, M>)
    requires task.pc.Deindex? && InRemove(task.op, task.pc, task.cur, base, mem)
    ensures var (task', mem') := RemoveMicro(task, mem);
      task' == task.(pc := task'.pc) && (task'.pc.Deindex? || task'.pc.Unlink?)
      && InRemove(task.op, task'.pc, task.cur, base, mem')
  {
    hide Inv, Calm, DrainIx, PeekIx, Chosen, Drop;
    var s, k := task.pc.s, task.pc.k;
    PeekedKeeps(task.op, s, task.cur);
    var members := task.cur.core.all[s].members;
    if k < |members| { DeletedOne(Calm(Peeked(task.op, task.cur)).index, members, k); }
  }

  lemma DeletedOne<I(!new), M(!new)>(index: map<M, Option<I>>, members: seq<M>, k: nat)
    requires k < |members|
    ensures index - Elements(members[..k]) - {members[k]} == index - Elements(members[..k + 1])
  {
    assert members[..k + 1] == members[..k] + [members[k]];
  }

  lemma UnlinkFollows<I(!new), M(!new)>(task: Task<I, M>, base: Index<I, M>, mem: Memory<I, M>)
    requires task.pc.Unlink? && InRemove(task.op, task.pc, task.cur, base, mem)
    ensures var (task', mem') := RemoveMicro(task, mem);
      task' == task.(pc := task'.pc) && task'.pc.Retire? && InRemove(task.op, task'.pc, task.cur, base, mem')
  {
    hide WellFormed, Exact, Paid, Calm, DrainIx, PeekIx, Chosen, Drop;
    var s, how := task.pc.s, HowOf(task.op);
    var from := Peeked(task.op, task.cur);
    PeekedKeeps(task.op, s, task.cur);
    DepartKeeps(from.core, [s], how);
    CalmDepart(from, s, how);
    var members := task.cur.core.all[s].members;
    assert members[..|members|] == members;
  }

  lemma RemovedIs<I, M>(op: Op<I, M>, s: nat, cur: Index<I, M>)
    requires Inv(cur) && Chosen(op, s, cur)
    ensures RemoveIx(Peeked(op, cur), s, HowOf(op)) ==
      if s in Peeked(op, cur).live then Compact(Popped(op, s, cur)) else Parted(op, s, cur)
  {
    hide Inv, DrainIx, Compact, Drop;
    PeekedKeeps(op, s, cur);
  }

  lemma ChosenReleases<I, M>(op: Op<I, M>, s: nat, cur: Index<I, M>)
    requires Inv(cur) && !op.Cancel? && Chosen(op, s, cur)
    ensures ReleaseIx(cur) == (RemoveIx(Peeked(op, cur), s, HowOf(op)), Some(s))
  {
    hide WellFormed, Exact, Paid;
    PeekRefines(cur);
  }

  /** After this step the removal is complete, and the call goes on to `next`. */
  ghost predicate Completed<I(!new), M(!new)>(task: Task<I, M>, base: Index<I, M>,
                                              task': Task<I, M>, mem': Memory<I, M>)
  {
    && task'.op == task.op
    && (if task.op.ReleaseAll? then Goal(task'.pc).Peeking? && InRemove(task.op, Goal(task'.pc), task'.cur, base, mem')
        else task'.pc.Unlocking? && Finished(task.op, task'.pc.out, base, mem'))
  }

  lemma RemovedCompletes<I(!new), M(!new)>(task: Task<I, M>, s: nat, acc: seq<nat>, base: Index<I, M>)
    requires RemovePlan(task.op, acc, task.cur, base) && Chosen(task.op, s, task.cur)
    ensures var ix' := RemoveIx(Peeked(task.op, task.cur), s, HowOf(task.op));
      Completed(task, base, Removed(task, s, acc, ix'), Calm(ix'))
  {
    hide Inv, Calm, RemoveIx, PeekIx, ReleaseIx, DrainIx, Settle, Drop, First, Goal;
    if task.op.ReleaseAll? {
      GoalAgain<I, M>(acc + [s]);
      RetireLoop(task.op, s, acc, task.cur, base);
    } else if task.op.Release? {
      ChosenReleases(task.op, s, task.cur);
    }
  }

  lemma RetireFollows<I(!new), M(!new)>(task: Task<I, M>, base: Index<I, M>, mem: Memory<I, M>)
    requires task.pc.Retire? && InRemove(task.op, task.pc, task.cur, base, mem)
    ensures var (task', mem') := RemoveMicro(task, mem);
      || (task' == task.(pc := task'.pc) && task'.pc.Compacting? && InRemove(task.op, task'.pc, task.cur, base, mem'))
      || Completed(task, base, task', mem')
  {
    hide Inv, Calm, Completed, DrainIx, Chosen, Removed, Peeked, PeekIx, Drop;
    var left := Parted(task.op, task.pc.s, task.cur);
    CalmCarries(left);
    RemovedIs(task.op, task.pc.s, task.cur);
    CalmSame(left, Popped(task.op, task.pc.s, task.cur));
    RemovedCompletes(task, task.pc.s, task.pc.acc, base);
  }

  lemma CompactFollows<I(!new), M(!new)>(task: Task<I, M>, base: Index<I, M>, mem: Memory<I, M>)
    requires task.pc.Compacting? && InRemove(task.op, task.pc, task.cur, base, mem)
    ensures var (task', mem') := RemoveMicro(task, mem); Completed(task, base, task', mem')
  {
    hide Inv, Calm, Completed, DrainIx, Chosen, Removed, Peeked, PeekIx, Drop;
    var popped := Popped(task.op, task.pc.s, task.cur);
    CalmCarries(popped);
    RemovedIs(task.op, task.pc.s, task.cur);
    CalmSame(popped, Compact(popped));
    RemovedCompletes(task, task.pc.s, task.pc.acc, base);
  }

  lemma GoalAgain<I, M>(acc: seq<nat>)
    ensures Goal<I, M>(Giving(Own, Again(acc))) == Goal<I, M>(Again(acc)) == Peeking(acc)
  {
    assert Goal<I, M>(Taking(Own, Peeking(acc))) == Peeking(acc);
  }

  lemma GoalAnswered<I, M>(op: Op<I, M>, next: Option<nat>, acc: seq<nat>)
    ensures Goal(Answered(op, next, acc)) ==
      if op.Peek? then Unlocking(Maybe(next))
      else if next.Some? then Delist(next.value, acc)
      else if op.Release? then Unlocking(Maybe(None))
      else Unlocking(Many(acc))
  {
    assert Goal<I, M>(Giving(Own, Unlocking(Many(acc)))) == Unlocking(Many(acc));
  }

  /** From here a removal goes on, or the call ends, at depth `depth`, and every block on the way
      is inside another. */
  ghost predicate Shaped<I, M>(op: Op<I, M>, pc: Pc<I, M>, depth: nat, groups: nat) {
    && (Removing(Goal(pc)) || Goal(pc).Unlocking?)
    && DepthAt(op, pc) == depth && Nested(op, pc, groups)
  }

  lemma AgainShape<I, M>(op: Op<I, M>, acc: seq<nat>, groups: nat)
    requires op.ReleaseAll?
    ensures Shaped(op, Again(acc), 1, groups) && Shaped(op, Giving(Own, Again(acc)), 2, groups)
  {
    TakeShape(op, Own, Peeking(acc), 3, groups);
    TakeShape(op, Own, Taking(Own, Peeking(acc)), 2, groups);
    GiveShape(op, Own, Again(acc), 1, groups);
  }

  lemma AnsweredShape<I, M>(op: Op<I, M>, next: Option<nat>, acc: seq<nat>, groups: nat)
    requires op.Peek? || op.Release? || op.ReleaseAll?
    ensures Shaped(op, Answered(op, next, acc), PeekDepth(op), groups)
  {
    hide Shaped;
    PlainShape(op, Unlocking(Maybe(next)), 1, groups);
    PlainShape(op, Unlocking(Maybe(None)), 1, groups);
    PlainShape(op, Unlocking(Many(acc)), 1, groups);
    GiveShape(op, Own, Unlocking(Maybe(None)), 1, groups);
    GiveShape(op, Own, Unlocking(Many(acc)), 1, groups);
    GiveShape(op, Own, Giving(Own, Unlocking(Many(acc))), 2, groups);
    if next.Some? {
      PlainShape(op, Delist(next.value, acc), RemoveDepth(op), groups);
      GiveShape(op, Own, Delist(next.value, acc), RemoveDepth(op), groups);
    }
  }

  lemma PlainShape<I, M>(op: Op<I, M>, pc: Pc<I, M>, depth: nat, groups: nat)
    requires (Removing(pc) || pc.Unlocking?) && DepthAt(op, pc) == depth
    ensures Shaped(op, pc, depth, groups)
  {
  }

  lemma TakeShape<I, M>(op: Op<I, M>, via: Via, next: Pc<I, M>, depth: nat, groups: nat)
    requires Shaped(op, next, depth, groups) && depth >= 2 && (via.Carried? ==> via.s < groups)
    ensures Shaped(op, Taking(via, next), depth - 1, groups)
  {
  }

  lemma GiveShape<I, M>(op: Op<I, M>, via: Via, next: Pc<I, M>, depth: nat, groups: nat)
    requires Shaped(op, next, depth, groups) && depth >= 1 && (via.Carried? ==> via.s < groups)
    ensures Shaped(op, Giving(via, next), depth + 1, groups)
  {
  }

  /** A micro-step of a removal stays within the removal or ends it, at the depth it was. */
  lemma RemoveShape<I(!new), M(!new)>(task: Task<I, M>, base: Index<I, M>, mem: Memory<I, M>)
    requires InRemove(task.op, task.pc, task.cur, base, mem)
    ensures var task' := RemoveMicro(task, mem).0;
      task'.op == task.op && Shaped(task.op, task'.pc, DepthAt(task.op, task.pc), |base.core.all|)
  {
    hide RemoveMicro, InRemove, Goal, DepthAt, Nested;
    RemoveScope(task, base, mem);
    if task.pc.Peeking? || task.pc.Asking? {
      PeekShape(task, mem, |base.core.all|);
    } else {
      LeaveShape(task, mem, |base.core.all|);
    }
  }

  lemma PeekShape<I(!new), M(!new)>(task: Task<I, M>, mem: Memory<I, M>, groups: nat)
    requires task.pc.Peeking? || task.pc.Asking?
    requires task.op.Peek? || task.op.Release? || task.op.ReleaseAll?
    requires var line := mem.ix.core.waiting;
      task.pc.Peeking? && mem.ix.core.strict && line != [] ==> line[0] < groups
    requires task.pc.Asking? ==> task.pc.s < groups
    ensures var task' := RemoveMicro(task, mem).0;
      task'.op == task.op && Shaped(task.op, task'.pc, DepthAt(task.op, task.pc), groups)
  {
    hide Answered, Shaped, State.Depart;
    var acc, ix := task.pc.acc, mem.ix;
    if task.pc.Asking? {
      var s := task.pc.s;
      PlainShape(task.op, task.pc, PeekDepth(task.op) + 1, groups);
      forall next
        ensures Shaped(task.op, Giving(Carried(s), Answered(task.op, next, acc)), PeekDepth(task.op) + 1, groups)
      {
        AnsweredShape(task.op, next, acc, groups);
        GiveShape(task.op, Carried(s), Answered(task.op, next, acc), PeekDepth(task.op), groups);
      }
    } else {
      PlainShape(task.op, task.pc, PeekDepth(task.op), groups);
      forall next { AnsweredShape(task.op, next, acc, groups); }
      if ix.core.strict && ix.core.waiting != [] {
        var s := ix.core.waiting[0];
        PlainShape(task.op, Asking(s, acc), PeekDepth(task.op) + 1, groups);
        TakeShape(task.op, Carried(s), Asking(s, acc), PeekDepth(task.op) + 1, groups);
      }
    }
  }

  lemma LeaveShape<I(!new), M(!new)>(task: Task<I, M>, mem: Memory<I, M>, groups: nat)
    requires Removing(task.pc) && !task.pc.Peeking? && !task.pc.Asking?
    requires task.op.Release? || task.op.ReleaseAll? || task.op.Cancel?
    ensures var task' := RemoveMicro(task, mem).0;
      task'.op == task.op && Shaped(task.op, task'.pc, DepthAt(task.op, task.pc), groups)
  {
    hide Again, Compact, State.Depart, Drop;
    if task.op.ReleaseAll? && (task.pc.Retire? || task.pc.Compacting?) {
      AgainShape(task.op, task.pc.acc + [task.pc.s], groups);
    }
  }

  /** The head is there to be asked. */
  lemma AskScope<I(!new), M(!new)>(task: Task<I, M>, base: Index<I, M>, mem: Memory<I, M>)
    requires task.pc.Asking? && InRemove(task.op, task.pc, task.cur, base, mem)
    ensures task.pc.s < |mem.ix.core.all| && task.pc.s < |mem.counts|
  {
    hide WellFormed, Exact, Paid, IndexOf, DrainIx;
    HeadAnswers(task.cur);
  }

  lemma RemoveScope<I(!new), M(!new)>(task: Task<I, M>, base: Index<I, M>, mem: Memory<I, M>)
    requires InRemove(task.op, task.pc, task.cur, base, mem)
    ensures Removing(task.pc)
    ensures task.op.Peek? || task.op.Release? || task.op.ReleaseAll? || task.op.Cancel?
    ensures task.pc.Peeking? || task.pc.Asking? ==> !task.op.Cancel?
    ensures task.op.Peek? ==> task.pc.Peeking? || task.pc.Asking?
    ensures task.pc.Peeking? && mem.ix.core.strict && mem.ix.core.waiting != [] ==>
      mem.ix.core.waiting[0] < |base.core.all|
    ensures task.pc.Asking? ==> task.pc.s < |base.core.all|
  {
    hide Exact, Paid, Disjoint, Conserved, InLine, Calm, DrainIx, Settle, Gone, IndexStep;
    assert task.cur.core.waiting != [] ==> task.cur.core.waiting[0] in task.cur.core.waiting;
  }

  lemma RetireLoop<I(!new), M(!new)>(op: Op<I, M>, s: nat, acc: seq<nat>, cur: Index<I, M>, base: Index<I, M>)
    requires op.ReleaseAll? && RemovePlan(op, acc, cur, base) && Chosen(op, s, cur)
    ensures var ix' := RemoveIx(Peeked(op, cur), s, HowOf(op));
      InRemove(op, Peeking(acc + [s]), ix', base, Calm(ix'))
  {
    hide WellFormed, Exact, Paid, Calm, PeekIx, RemoveIx, ReleaseIx, DrainIx;
    ChosenReleases(op, s, cur);
    ReleaseRefines(cur);
    ReleaseTurn(cur);
    var ix' := ReleaseIx(cur).0;
    CalmCarries(ix');
    var rest := DrainIx(ix', |ix'.core.waiting| + 1).1;
    assert acc + ([s] + rest) == acc + [s] + rest;
  }

  lemma CalmCarries<I(!new), M(!new)>(ix: Index<I, M>)
    ensures Calm(ix).ix == ix
  {
  }

  lemma PeekingFollows<I(!new), M(!new)>(task: Task<I, M>, base: Index<I, M>, mem: Memory<I, M>)
    requires task.pc.Peeking? && InRemove(task.op, task.pc, task.cur, base, mem)
    ensures var (task', mem') := RemoveMicro(task, mem);
      task' == task.(pc := task'.pc) && Onward(task, Goal(task'.pc), base, mem')
  {
    hide Inv, Calm, DrainIx, RemoveIx, Answered;
    var ix, cur, acc := mem.ix, task.cur, task.pc.acc;
    CalmCarries(ix);
    if !cur.core.strict && ix.heap != {} && Min(ix.heap) !in ix.live {
      CalmSame(ix, ix.(heap := ix.heap - {Min(ix.heap)}, pops := ix.pops + 1));
    } else if !cur.core.strict {
      HeapAnswers(cur, ix);
      AnswerFollows(task, acc, base);
    } else if cur.core.waiting == [] {
      HeadAnswers(cur);
      AnswerFollows(task, acc, base);
    }
  }

  lemma AskingFollows<I(!new), M(!new)>(task: Task<I, M>, base: Index<I, M>, mem: Memory<I, M>)
    requires task.pc.Asking? && InRemove(task.op, task.pc, task.cur, base, mem)
    ensures var (task', mem') := RemoveMicro(task, mem);
      task' == task.(pc := task'.pc) && task'.pc.Giving? && Onward(task, Goal(task'.pc), base, mem')
  {
    hide WellFormed, Exact, Paid, IndexOf, DrainIx, RemoveIx, Answered;
    HeadAnswers(task.cur);
    AnswerFollows(task, task.pc.acc, base);
  }

  /** The call is over, or goes on to a removal or to another look. */
  ghost predicate Onward<I(!new), M(!new)>(task: Task<I, M>, pc: Pc<I, M>, base: Index<I, M>, mem: Memory<I, M>) {
    if pc.Unlocking? then Finished(task.op, pc.out, base, mem)
    else Removing(pc) && InRemove(task.op, pc, task.cur, base, mem)
  }

  /** From the right answer of peek every caller of peek goes on rightly. */
  lemma AnswerFollows<I(!new), M(!new)>(task: Task<I, M>, acc: seq<nat>, base: Index<I, M>)
    requires RemovePlan(task.op, acc, task.cur, base) && !task.op.Cancel?
    ensures Onward(task, Goal(Answered(task.op, task.cur.core.Next(), acc)), base, Calm(PeekIx(task.cur).0))
  {
    hide WellFormed, Exact, Paid, Calm, DrainIx, RemoveIx, Settle, First, Goal, Answered;
    PeekRefines(task.cur);
    GoalAnswered(task.op, task.cur.core.Next(), acc);
    if task.cur.core.Next().None? { PeekEnds(task.op, acc, task.cur, base); }
  }

  /** Once no stale entry is on top, the top of the heap is what peek answers. */
  lemma HeapAnswers<I(!new), M(!new)>(cur: Index<I, M>, ix: Index<I, M>)
    requires Inv(cur) && ix.core == cur.core && !cur.core.strict
    requires Settle(ix) == Settle(cur) && (ix.heap == {} || Min(ix.heap) in ix.live)
    ensures ix == PeekIx(cur).0
    ensures cur.core.Next() == if ix.heap == {} then None else Some(Min(ix.heap))
  {
    PeekRefines(cur);
  }

  /** The head, asked under its own lock, answers for the whole line. */
  lemma HeadAnswers<I(!new), M(!new)>(cur: Index<I, M>)
    requires Inv(cur) && cur.core.strict
    ensures PeekIx(cur).0 == cur
    ensures cur.core.waiting == [] ==> cur.core.Next().None?
    ensures cur.core.waiting != [] ==>
      var s := cur.core.waiting[0];
      && s < |cur.core.all| && s < |Calm(cur).counts|
      && cur.core.Next() == if Calm(cur).counts[s] == |cur.core.all[s].members| then Some(s) else None
  {
    if cur.core.waiting != [] {
      assert cur.core.waiting[0] in cur.core.waiting;
      CalmCount(cur, cur.core.waiting[0]);
    }
  }

  lemma PeekEnds<I(!new), M(!new)>(op: Op<I, M>, acc: seq<nat>, cur: Index<I, M>, base: Index<I, M>)
    requires RemovePlan(op, acc, cur, base) && !op.Cancel? && cur.core.Next().None?
    ensures op.Release? ==> IndexStep(base, op) == (PeekIx(cur).0, Maybe(None))
    ensures op.ReleaseAll? ==> IndexStep(base, op) == (PeekIx(cur).0, Many(acc))
  {
    hide WellFormed, Exact, Paid, PeekIx, DrainIx;
    PeekRefines(cur);
    ReleaseTurn(cur);
    assert acc + [] == acc;
  }

  /** One micro-step of peek, release, release_all or cancel: the call is over, or memory is worth
      what the position it comes to next says. */
  lemma RemoveFollows<I(!new), M(!new)>(task: Task<I, M>, base: Index<I, M>, mem: Memory<I, M>)
    requires InRemove(task.op, task.pc, task.cur, base, mem)
    ensures var (task', mem') := RemoveMicro(task, mem);
      && task'.op == task.op
      && Onward(task', Goal(task'.pc), base, mem')
  {
    hide RemovePlan, Chosen, Calm, Gone, RemoveMicro, Finished;
    match task.pc
    case Peeking(_) => PeekingFollows(task, base, mem);
    case Asking(_, _) => AskingFollows(task, base, mem);
    case Delist(_, _) => DelistFollows(task, base, mem);
    case Deindex(_, _, _) => DeindexFollows(task, base, mem);
    case Unlink(_, _) => UnlinkFollows(task, base, mem);
    case Retire(_, _) => RetireFollows(task, base, mem);
    case Compacting(_, _) => CompactFollows(task, base, mem);
  }

  // ---------- clear ----------

  ghost predicate InWipe<I(!new), M(!new)>(op: Op<I, M>, pc: Pc<I, M>, base: Index<I, M>, mem: Memory<I, M>) {
    && op.Clear?
    && var calm := Calm(base);
       var left := base.(core := base.core.Depart(base.core.waiting, Flushed));
       match pc
       case Cutting(k, line) =>
         line == base.core.waiting && k <= |line| && mem == calm.(linked := calm.linked - Elements(line[..k]))
       case Wiping(stage, line) =>
         line == base.core.waiting
         && mem == (if stage == 0 then calm.(linked := {})
                    else if stage == 1 then calm.(linked := {}, ix := left)
                    else if stage == 2 then calm.(linked := {}, ix := left, index := map[])
                    else calm.(linked := {}, ix := left.(live := {}), index := map[]))
       case _ => false
  }

  lemma WipeFollows<I(!new), M(!new)>(op: Op<I, M>, pc: Pc<I, M>, base: Index<I, M>, mem: Memory<I, M>)
    requires Inv(base) && InWipe(op, pc, base, mem)
    ensures var (pc', mem') := WipeMicro(pc, mem);
      if pc'.Unlocking? then Finished(op, pc'.out, base, mem') else InWipe(op, pc', base, mem')
  {
    hide Inv, Calm, Finished, WipeMicro, InWipe;
    WipeKinds(op, pc, base, mem);
    if pc.Cutting? {
      CutFollows(op, pc, base, mem);
    } else if pc.stage < 3 {
      StageFollows(op, pc, base, mem);
    } else {
      LastFollows(op, pc, base, mem);
    }
  }

  lemma WipeKinds<I(!new), M(!new)>(op: Op<I, M>, pc: Pc<I, M>, base: Index<I, M>, mem: Memory<I, M>)
    requires InWipe(op, pc, base, mem)
    ensures pc.Cutting? || pc.Wiping?
  {
    hide Calm;
  }

  lemma CutFollows<I(!new), M(!new)>(op: Op<I, M>, pc: Pc<I, M>, base: Index<I, M>, mem: Memory<I, M>)
    requires pc.Cutting? && InWipe(op, pc, base, mem)
    ensures var (pc', mem') := WipeMicro(pc, mem); !pc'.Unlocking? && InWipe(op, pc', base, mem')
  {
    hide Inv, IndexOf, Drop;
    CutOne(Calm(base).linked, pc.line, pc.k);
  }

  lemma StageFollows<I(!new), M(!new)>(op: Op<I, M>, pc: Pc<I, M>, base: Index<I, M>, mem: Memory<I, M>)
    requires pc.Wiping? && pc.stage < 3 && InWipe(op, pc, base, mem)
    ensures var (pc', mem') := WipeMicro(pc, mem); !pc'.Unlocking? && InWipe(op, pc', base, mem')
  {
    hide Inv, Calm, State.Depart;
    CalmCarries(base);
  }

  lemma LastFollows<I(!new), M(!new)>(op: Op<I, M>, pc: Pc<I, M>, base: Index<I, M>, mem: Memory<I, M>)
    requires Inv(base) && pc.Wiping? && pc.stage >= 3 && InWipe(op, pc, base, mem)
    ensures var (pc', mem') := WipeMicro(pc, mem); pc'.Unlocking? && Finished(op, pc'.out, base, mem')
  {
    hide Inv, Calm, State.Depart;
    CalmClear(base);
  }

  /** Each turn of the loop cuts one callback, and all the turns cut all of them. */
  lemma CutOne(linked: set<nat>, line: seq<nat>, k: nat)
    requires k <= |line|
    ensures k < |line| ==> linked - Elements(line[..k]) - {line[k]} == linked - Elements(line[..k + 1])
    ensures k == |line| && linked <= Elements(line) ==> linked - Elements(line[..k]) == {}
  {
    if k < |line| {
      assert line[..k + 1] == line[..k] + [line[k]];
    } else {
      assert line[..k] == line;
    }
  }

  lemma CalmClear<I(!new), M(!new)>(base: Index<I, M>)
    requires Inv(base)
    ensures Calm(ClearIx(base)) == Calm(base).(linked := {}, ix := ClearIx(base), index := map[])
  {
    ClearRefines(base);
    var after := Calm(ClearIx(base));
    assert after.counts == Calm(base).counts && after.locks == Calm(base).locks;
    assert after.index == map[];
  }

  // ---------- the first look ----------

  lemma SeekFollows<I(!new), M(!new)>(op: Op<I, M>, base: Index<I, M>)
    requires Inv(base) && !op.Admit? && !op.MarkHeld?
    ensures var pc, mem := SeekMicro(op, Calm(base)), Calm(base);
      if pc.Enter? then InMark(op, pc, base, base, mem)
      else if Clearing(pc) then InWipe(op, pc, base, mem)
      else if pc.Unlocking? then Finished(op, pc.out, base, mem)
      else if Goal(pc).Looking? then op == MarkReady(Goal(pc).m)
      else Removing(Goal(pc)) && InRemove(op, Goal(pc), base, base, mem)
  {
    hide WellFormed, Exact, Paid, Calm, Lookup, HeldIx, Settle, First, Drop, Compact;
    CalmCarries(base);
    match op
    case MarkReady(m) =>
    case MarkGroup(id) =>
      if base.core.Find(id).Some? {
        var s := base.core.Find(id).value;
        FoundWaits(base, s);
      }
    case GroupOf(m) => CalmFinds(base, m);
    case Cancel(id) =>
    case Clear =>
    case Peek =>
    case Release =>
    case ReleaseAll =>
      var rest := DrainIx(base, |base.core.waiting| + 1).1;
      assert [] + rest == rest;
  }

  /** group_of, called by mark_ready. */
  lemma LookFollows<I(!new), M(!new)>(m: M, base: Index<I, M>)
    requires Inv(base)
    ensures var pc := Goal(LookMicro(m, Calm(base)));
      if pc.Enter? then InMark(MarkReady(m), pc, base, base, Calm(base))
      else pc.Unlocking? && Finished(MarkReady(m), pc.out, base, Calm(base))
  {
    hide WellFormed, Exact, Paid, Calm, Lookup, HeldIx;
    SeekMember(base, m);
  }

  lemma SeekMember<I(!new), M(!new)>(base: Index<I, M>, m: M)
    requires Inv(base)
    ensures Lookup(Calm(base), m) == base.core.Holder(m)
    ensures base.core.Holder(m).Some? ==> base.core.Holder(m).value < |base.core.all|
  {
    CalmFinds(base, m);
  }

  lemma FoundWaits<I(!new), M(!new)>(base: Index<I, M>, s: nat)
    requires Inv(base) && s in base.core.waiting
    ensures s < |base.core.all| && base.core.all[s].members != []
  {
    assert base.core.all[s].Valid();
  }

  // ---------- lock donation ----------

  /** Every published group carries the queue's lock. */
  ghost predicate Donation<I, M>(mem: Memory<I, M>) {
    && |mem.locks| == |mem.ix.core.all|
    && forall s | 0 <= s < |mem.locks| :: mem.locks[s] == QueueLock
  }

  lemma CalmDonated<I(!new), M(!new)>(ix: Index<I, M>)
    ensures Donation(Calm(ix)) && |Calm(ix).locks| == |ix.core.all|
  {
    hide IndexOf;
  }

  lemma AdmitDonated<I(!new), M(!new)>(op: Op<I, M>, pc: Pc<I, M>, base: Index<I, M>, mem: Memory<I, M>)
    requires InAdmit(op, pc, base, mem)
    ensures Donation(mem) && |base.core.all| <= |mem.locks|
  {
    hide Calm;
    CalmDonated(base);
  }

  lemma MarkDonated<I(!new), M(!new)>(op: Op<I, M>, pc: Pc<I, M>, cur: Index<I, M>, base: Index<I, M>,
                                      mem: Memory<I, M>)
    requires InMark(op, pc, cur, base, mem)
    ensures Donation(mem) && |base.core.all| <= |mem.locks|
  {
    hide Inv, Calm, HeldIx, EachIx;
    CalmDonated(cur);
    match pc
    case Testing(s, rest) =>
      CalmDonated(cur.(core := cur.core.Mark(s, rest[0])));
    case Noting(s, rest) =>
      CalmDonated(Noticed(cur, s, rest[0]));
    case Pushing(s, rest) =>
      CalmDonated(Noticed(cur, s, rest[0]).(live := cur.live + {s}));
    case Leave(s, rest, _) =>
      HeldSize(cur, s, rest[0]);
      CalmDonated(HeldIx(cur, s, rest[0]).0);
    case _ =>
  }

  lemma HeldSize<I, M>(ix: Index<I, M>, s: nat, m: M)
    ensures |HeldIx(ix, s, m).0.core.all| == |ix.core.all|
  {
  }

  lemma RemoveDonated<I(!new), M(!new)>(op: Op<I, M>, pc: Pc<I, M>, cur: Index<I, M>, base: Index<I, M>,
                                        mem: Memory<I, M>)
    requires InRemove(op, pc, cur, base, mem)
    ensures Donation(mem) && |base.core.all| <= |mem.locks|
  {
    hide WellFormed, Exact, Paid, Calm, DrainIx, PeekIx, Settle;
    PeekRefines(cur);
    CalmDonated(mem.ix);
    CalmDonated(Peeked(op, cur));
    CalmDonated(cur);
    if pc.Retire? { CalmDonated(Parted(op, pc.s, cur)); }
    if pc.Compacting? { CalmDonated(Popped(op, pc.s, cur)); }
  }

  lemma WipeDonated<I(!new), M(!new)>(op: Op<I, M>, pc: Pc<I, M>, base: Index<I, M>, mem: Memory<I, M>)
    requires InWipe(op, pc, base, mem)
    ensures Donation(mem) && |base.core.all| <= |mem.locks|
  {
    hide Calm;
    CalmDonated(base);
  }
}
