/** Every interleaving of the micro-steps of every thread.

`Move` lets any thread take its next micro-step, whatever the others are doing; a schedule is
any sequence of such choices. `Good` holds after every schedule. */
module Interleaving {
  import opened Lists
  import opened Discipline
  import opened Guarantees
  import opened ReadyIndex
  import opened Threads
  import opened Protocol

  /** A held reentrant lock. */
  datatype Hold = Hold(owner: nat, depth: nat)

  datatype Event<I, M> = Event(thread: nat, op: Op<I, M>, out: Outcome)

  /** `log` lists the finished calls in the order they finished; `base` is the queue after them. */
  datatype System<I, M> = System(
    mem: Memory<I, M>,
    locks: map<LockId, Hold>,
    threads: map<nat, Task<I, M>>,
    log: seq<Event<I, M>>,
    base: Index<I, M>)

  ghost function InitSys<I(!new), M(!new)>(strict: bool): System<I, M> {
    System(Calm(InitIx<I, M>(strict)), map[], map[], [], InitIx<I, M>(strict))
  }

  // ---------- steps ----------

  ghost function Take(locks: map<LockId, Hold>, l: LockId, t: nat): Option<map<LockId, Hold>> {
    if l !in locks then Some(locks[l := Hold(t, 1)])
    else if locks[l].owner == t then Some(locks[l := Hold(t, locks[l].depth + 1)])
    else None
  }

  ghost function Untake(locks: map<LockId, Hold>, l: LockId): map<LockId, Hold> {
    if l !in locks || locks[l].depth <= 1 then locks - {l}
    else locks[l := Hold(locks[l].owner, locks[l].depth - 1)]
  }

  /** Tries to take a lock: on success the call moves to `pc`, otherwise it stays where it is. */
  ghost function Locking<I, M>(sys: System<I, M>, t: nat, task: Task<I, M>, l: LockId, pc: Pc<I, M>): System<I, M> {
    match Take(sys.locks, l, t)
    case None => sys
    case Some(locks) =>
      var cur := if Depth(task) == 0 then sys.base else task.cur;
      sys.(locks := locks, threads := sys.threads[t := Task(task.op, pc, cur)])
  }

  ghost function Finish<I, M>(sys: System<I, M>, t: nat, op: Op<I, M>, out: Outcome): System<I, M> {
    sys.(threads := sys.threads - {t}, log := sys.log + [Event(t, op, out)], base := IndexStep(sys.base, op).0)
  }

  /** How often the call holds the queue's lock. */
  ghost function Depth<I, M>(task: Task<I, M>): nat {
    DepthAt(task.op, task.pc)
  }

  /** A micro-step that takes or leaves no lock. */
  ghost function Advance<I(!new), M(!new)>(task: Task<I, M>, mem: Memory<I, M>): (Task<I, M>, Memory<I, M>) {
    if task.pc.Seek? then (task.(pc := SeekMicro(task.op, mem)), mem)
    else if task.pc.Looking? then (task.(pc := LookMicro(task.pc.m, mem)), mem)
    else if Clearing(task.pc) then var (pc, mem') := WipeMicro(task.pc, mem); (task.(pc := pc), mem')
    else if Removing(task.pc) then RemoveMicro(task, mem)
    else if Marking(task.pc) then var (pc, mem') := MarkMicro(task.pc, mem); (task.(pc := pc), mem')
    else var (pc, mem') := AdmitMicro(task.pc, mem); (task.(pc := pc), mem')
  }

  ghost function LockOf<I, M>(via: Via, mem: Memory<I, M>): Option<LockId> {
    match via
    case Own => Some(QueueLock)
    case Carried(s) => if s < |mem.locks| then Some(mem.locks[s]) else None
  }

  /** Thread `t` takes its next micro-step, or makes a new call if it has none in progress. A
      caller can hold only a group that some finished call handed out. */
  ghost function Move<I(!new), M(!new)>(sys: System<I, M>, t: nat, call: Op<I, M>): System<I, M> {
    if t !in sys.threads then
      if call.MarkHeld? && call.seqno >= |sys.base.core.all| then sys
      else sys.(threads := sys.threads[t := Task(call, Pc.Start, sys.base)])
    else
      var task := sys.threads[t];
      match task.pc
      case Start => Begin(sys, t, task)
      case Built(g) => Locking(sys, t, task, QueueLock, Checking(g))
      case Enter(s, rest) =>
        if s < |sys.mem.locks| then Locking(sys, t, task, sys.mem.locks[s], Flagging(s, rest)) else sys
      case Leave(s, rest, out) =>
        if s < |sys.mem.locks| then Leaving(sys.(locks := Untake(sys.locks, sys.mem.locks[s])), t, task) else sys
      case Taking(via, next) =>
        (match LockOf(via, sys.mem)
         case None => sys
         case Some(l) => Locking(sys, t, task, l, next))
      case Giving(via, next) =>
        (match LockOf(via, sys.mem)
         case None => sys
         case Some(l) => sys.(locks := Untake(sys.locks, l), threads := sys.threads[t := task.(pc := next)]))
      case Unlocking(out) => Finish(sys.(locks := Untake(sys.locks, QueueLock)), t, task.op, out)
      case _ =>
        var (task', mem') := Advance(task, sys.mem);
        sys.(mem := mem', threads := sys.threads[t := task'])
  }

  /** A group is built before any lock is taken. */
  ghost function Begin<I(!new), M(!new)>(sys: System<I, M>, t: nat, task: Task<I, M>): System<I, M> {
    match task.op
    case Admit(id, members) =>
      if members.Text? || members.items == [] || !Distinct(members.items) then Finish(sys, t, task.op, Rejected)
      else sys.(threads := sys.threads[t := task.(pc := Built(Private(id, members.items, 0, OwnLock(t))))])
    case MarkHeld(s, m) => sys.(threads := sys.threads[t := task.(pc := Enter(s, [m]))])
    case _ => Locking(sys, t, task, QueueLock, Seek)
  }

  ghost function Leaving<I, M>(sys: System<I, M>, t: nat, task: Task<I, M>): System<I, M>
    requires task.pc.Leave?
  {
    var s, rest, out := task.pc.s, task.pc.rest, task.pc.out;
    if task.op.MarkHeld? then Finish(sys, t, task.op, out)
    else
      var task' :=
        if !task.op.MarkGroup? then task.(pc := Unlocking(out))
        else if |rest| <= 1 then task.(pc := Unlocking(Flag(true)))
        else task.(pc := Enter(s, rest[1..]), cur := HeldIx(task.cur, s, rest[0]).0);
      sys.(threads := sys.threads[t := task'])
  }

  datatype Choice<I, M> = Choice(thread: nat, call: Op<I, M>)

  ghost function Run<I(!new), M(!new)>(sys: System<I, M>, schedule: seq<Choice<I, M>>): System<I, M> {
    if schedule == [] then sys
    else
      var last := schedule[|schedule| - 1];
      Move(Run(sys, schedule[..|schedule| - 1]), last.thread, last.call)
  }

  // ---------- the invariant ----------

  /** What a thread that holds no lock may be up to. */
  ghost predicate Outside<I(!new), M(!new)>(task: Task<I, M>, base: Index<I, M>) {
    match task.pc
    case Start => task.op.MarkHeld? ==> task.op.seqno < |base.core.all|
    case Built(g) => Made(task.op, g)
    case Enter(s, rest) => |rest| == 1 && task.op == MarkHeld(s, rest[0]) && s < |base.core.all|
    case _ => false
  }

  /** What memory is worth while a thread that holds the lock is at a given point; opening and
      closing inner blocks does not change it. */
  ghost predicate Inside<I(!new), M(!new)>(task: Task<I, M>, base: Index<I, M>, mem: Memory<I, M>) {
    Nested(task.op, task.pc, |base.core.all|) && Working(task.(pc := Goal(task.pc)), base, mem)
  }

  ghost predicate Working<I(!new), M(!new)>(task: Task<I, M>, base: Index<I, M>, mem: Memory<I, M>) {
    if Admitting(task.pc) then InAdmit(task.op, task.pc, base, mem)
    else if task.pc.Seek? then !task.op.Admit? && !task.op.MarkHeld? && task.cur == base && mem == Calm(base)
    else if task.pc.Looking? then task.op == MarkReady(task.pc.m) && task.cur == base && mem == Calm(base)
    else if Clearing(task.pc) then InWipe(task.op, task.pc, base, mem)
    else if Removing(task.pc) then InRemove(task.op, task.pc, task.cur, base, mem)
    else if task.pc.Unlocking? then Finished(task.op, task.pc.out, base, mem)
    else InMark(task.op, task.pc, task.cur, base, mem)
  }

  /** A thread holds the queue's lock exactly while it is inside, and as often as it should. */
  ghost predicate InOrder<I(!new), M(!new)>(sys: System<I, M>, t: nat)
    requires t in sys.threads
  {
    var task := sys.threads[t];
    if Depth(task) == 0 then Outside(task, sys.base)
    else sys.locks == map[QueueLock := Hold(t, Depth(task))] && Inside(task, sys.base, sys.mem)
  }

  ghost predicate Good<I(!new), M(!new)>(sys: System<I, M>) {
    && Inv(sys.base)
    && (forall t | t in sys.threads :: InOrder(sys, t))
    && (sys.locks == map[] ==> sys.mem == Calm(sys.base))
    && (sys.locks != map[] ==> exists t :: t in sys.threads && Depth(sys.threads[t]) > 0)
  }

  // ---------- frames: what one thread's step leaves to the others ----------

  /** Only the holder is inside. */
  lemma Alone<I(!new), M(!new)>(sys: System<I, M>, t: nat)
    requires Good(sys) && t in sys.threads && Depth(sys.threads[t]) > 0
    ensures forall u | u in sys.threads && u != t :: Depth(sys.threads[u]) == 0 && Outside(sys.threads[u], sys.base)
    ensures sys.locks == map[QueueLock := Hold(t, Depth(sys.threads[t]))]
    ensures Inside(sys.threads[t], sys.base, sys.mem)
  {
    hide Outside, Inside, Inv, Depth;
    assert InOrder(sys, t);
    forall u | u in sys.threads && u != t
      ensures Depth(sys.threads[u]) == 0 && Outside(sys.threads[u], sys.base)
    {
      assert InOrder(sys, u);
      assert sys.locks[QueueLock].owner == t;
    }
  }

  /** Nobody is inside while the lock is free. */
  lemma Nobody<I(!new), M(!new)>(sys: System<I, M>)
    requires Good(sys) && sys.locks == map[]
    ensures forall u | u in sys.threads :: Depth(sys.threads[u]) == 0 && Outside(sys.threads[u], sys.base)
    ensures sys.mem == Calm(sys.base)
  {
    hide Outside, Inside, Inv, Depth, Calm;
    forall u | u in sys.threads ensures Depth(sys.threads[u]) == 0 && Outside(sys.threads[u], sys.base) {
      assert InOrder(sys, u);
      assert QueueLock !in sys.locks;
    }
  }

  /** The holder goes on holding. */
  lemma Holds<I(!new), M(!new)>(sys: System<I, M>, t: nat, task: Task<I, M>, sys': System<I, M>)
    requires Good(sys) && t in sys.threads && Depth(sys.threads[t]) > 0
    requires sys'.threads == sys.threads[t := task] && sys'.base == sys.base
    requires Depth(task) > 0 && sys'.locks == map[QueueLock := Hold(t, Depth(task))]
    requires Inside(task, sys.base, sys'.mem)
    ensures Good(sys')
  {
    hide Outside, Inside, Inv, Depth, Calm;
    Alone(sys, t);
    assert t in sys'.threads;
    assert sys'.locks != map[] by { assert QueueLock in sys'.locks; }
    forall u | u in sys'.threads ensures InOrder(sys', u) { }
  }

  /** A thread outside takes the free lock. */
  lemma Enters<I(!new), M(!new)>(sys: System<I, M>, t: nat, task: Task<I, M>, sys': System<I, M>)
    requires Good(sys) && sys.locks == map[]
    requires sys' == sys.(threads := sys.threads[t := task], locks := map[QueueLock := Hold(t, 1)])
    requires Depth(task) == 1 && Inside(task, sys.base, sys.mem)
    ensures Good(sys')
  {
    hide Outside, Inside, Inv, Depth, Calm;
    Nobody(sys);
    assert t in sys'.threads;
    assert sys'.locks != map[] by { assert QueueLock in sys'.locks; }
    forall u | u in sys'.threads ensures InOrder(sys', u) { }
  }

  /** A thread outside stays outside. */
  lemma Roams<I(!new), M(!new)>(sys: System<I, M>, t: nat, task: Task<I, M>, sys': System<I, M>)
    requires Good(sys) && (t in sys.threads ==> Depth(sys.threads[t]) == 0)
    requires sys' == sys.(threads := sys.threads[t := task])
    requires Depth(task) == 0 && Outside(task, sys.base)
    ensures Good(sys')
  {
    hide Outside, Inside, Inv, Depth, Calm;
    forall u | u in sys'.threads ensures InOrder(sys', u) {
      if u != t { assert InOrder(sys, u); }
    }
    if sys.locks != map[] {
      var h :| h in sys.threads && Depth(sys.threads[h]) > 0;
      assert h in sys'.threads && sys'.threads[h] == sys.threads[h];
    }
  }

  lemma BaseGrows<I(!new), M(!new)>(base: Index<I, M>, op: Op<I, M>)
    requires Inv(base)
    ensures Inv(IndexStep(base, op).0)
    ensures |base.core.all| <= |IndexStep(base, op).0.core.all|
  {
    hide WellFormed, Exact, Paid, IndexStep, Move;
    StepRefines(base, op);
    StepEvolves(base.core, op);
  }

  /** The holder gives up the lock and its call is over: memory is calm for the next. */
  lemma Exits<I(!new), M(!new)>(sys: System<I, M>, t: nat, op: Op<I, M>, out: Outcome, sys': System<I, M>)
    requires Good(sys) && t in sys.threads && Depth(sys.threads[t]) > 0
    requires Finished(op, out, sys.base, sys.mem)
    requires sys' == Finish(sys.(locks := map[]), t, op, out)
    ensures Good(sys')
  {
    hide Inside, Inv, Depth, Calm, IndexStep;
    Alone(sys, t);
    BaseGrows(sys.base, op);
    forall u | u in sys'.threads ensures InOrder(sys', u) {
      assert u in sys.threads && u != t && Outside(sys.threads[u], sys.base);
    }
  }

  /** A refused group never reached the queue. */
  lemma Refused<I(!new), M(!new)>(sys: System<I, M>, t: nat, op: Op<I, M>)
    requires Good(sys) && t in sys.threads && Depth(sys.threads[t]) == 0
    requires op.Admit? && (op.members.Text? || op.members.items == [] || !Distinct(op.members.items))
    ensures Good(Finish(sys, t, op, Rejected)) && IndexStep(sys.base, op) == (sys.base, Rejected)
  {
    hide Outside, Inside, Inv, Depth, Calm;
    var sys' := Finish(sys, t, op, Rejected);
    assert IndexStep(sys.base, op) == (sys.base, Rejected);
    forall u | u in sys'.threads ensures InOrder(sys', u) { assert InOrder(sys, u); }
    if sys.locks != map[] {
      var h :| h in sys.threads && Depth(sys.threads[h]) > 0;
      assert h in sys'.threads && sys'.threads[h] == sys.threads[h];
    }
  }

  // ---------- lock donation ----------

  /** Wherever the holder stands, every published group carries the queue's lock. */
  lemma InsideDonated<I(!new), M(!new)>(task: Task<I, M>, base: Index<I, M>, mem: Memory<I, M>)
    requires Inv(base) && Inside(task, base, mem)
    ensures Donation(mem) && |base.core.all| <= |mem.locks|
  {
    hide Inv, Donation, Calm, InAdmit, InMark, InRemove, InWipe, IndexStep;
    CalmDonated(base);
    var pc := Goal(task.pc);
    if Admitting(pc) {
      AdmitDonated(task.op, pc, base, mem);
    } else if Clearing(pc) {
      WipeDonated(task.op, pc, base, mem);
    } else if Removing(pc) {
      RemoveDonated(task.op, pc, task.cur, base, mem);
    } else if pc.Unlocking? {
      BaseGrows(base, task.op);
      CalmDonated(IndexStep(base, task.op).0);
    } else if !pc.Seek? && !pc.Looking? {
      MarkDonated(task.op, pc, task.cur, base, mem);
    }
  }

  lemma GoodDonated<I(!new), M(!new)>(sys: System<I, M>)
    requires Good(sys)
    ensures Donation(sys.mem) && |sys.base.core.all| <= |sys.mem.locks|
  {
    hide Inv, Donation, Calm, Inside, Outside, Depth;
    if sys.locks == map[] {
      CalmDonated(sys.base);
    } else {
      var t :| t in sys.threads && Depth(sys.threads[t]) > 0;
      Alone(sys, t);
      InsideDonated(sys.threads[t], sys.base, sys.mem);
    }
  }

  // ---------- every step keeps the invariant ----------

  lemma LockingGood<I(!new), M(!new)>(sys: System<I, M>, t: nat, task: Task<I, M>, pc: Pc<I, M>)
    requires Good(sys) && t in sys.threads && task == sys.threads[t] && Depth(task) == 0
    requires sys.locks == map[] ==>
      Depth(Task(task.op, pc, sys.base)) == 1 && Inside(Task(task.op, pc, sys.base), sys.base, sys.mem)
    ensures Good(Locking(sys, t, task, QueueLock, pc))
  {
    hide Inv, Inside, Outside, Depth, Calm;
    if sys.locks == map[] {
      assert QueueLock !in sys.locks;
      Enters(sys, t, Task(task.op, pc, sys.base), Locking(sys, t, task, QueueLock, pc));
    } else {
      var h :| h in sys.threads && Depth(sys.threads[h]) > 0;
      Alone(sys, h);
      assert sys.locks[QueueLock].owner == h != t;
    }
  }

  lemma BeginGood<I(!new), M(!new)>(sys: System<I, M>, t: nat)
    requires Good(sys) && t in sys.threads && sys.threads[t].pc.Start?
    ensures Good(Begin(sys, t, sys.threads[t]))
  {
    hide Inv, Calm, Finish, Locking;
    var task := sys.threads[t];
    match task.op
    case Admit(id, members) =>
      if members.Text? || members.items == [] || !Distinct(members.items) {
        Refused(sys, t, task.op);
      } else {
        Roams(sys, t, task.(pc := Built(Private(id, members.items, 0, OwnLock(t)))), Begin(sys, t, task));
      }
    case MarkHeld(s, m) =>
      assert InOrder(sys, t);
      Roams(sys, t, task.(pc := Enter(s, [m])), Begin(sys, t, task));
    case _ =>
      if sys.locks == map[] { Nobody(sys); }
      LockingGood(sys, t, task, Seek);
  }

  lemma BuiltGood<I(!new), M(!new)>(sys: System<I, M>, t: nat)
    requires Good(sys) && t in sys.threads && sys.threads[t].pc.Built?
    ensures Good(Locking(sys, t, sys.threads[t], QueueLock, Checking(sys.threads[t].pc.g)))
  {
    hide Inv, Calm, Locking;
    assert InOrder(sys, t);
    if sys.locks == map[] { Nobody(sys); }
    LockingGood(sys, t, sys.threads[t], Checking(sys.threads[t].pc.g));
  }

  lemma EnterGood<I(!new), M(!new)>(sys: System<I, M>, t: nat, call: Op<I, M>)
    requires Good(sys) && t in sys.threads && sys.threads[t].pc.Enter?
    ensures Good(Move(sys, t, call))
  {
    hide Good, Inv, Calm, Begin, Move;
    if Depth(sys.threads[t]) == 0 {
      EnterFirst(sys, t, call);
    } else {
      EnterAgain(sys, t, call);
    }
  }

  lemma EnterFirst<I(!new), M(!new)>(sys: System<I, M>, t: nat, call: Op<I, M>)
    requires Good(sys) && t in sys.threads && sys.threads[t].pc.Enter? && Depth(sys.threads[t]) == 0
    ensures Good(Move(sys, t, call))
  {
    hide Inv, Calm, Begin;
    var task := sys.threads[t];
    GoodDonated(sys);
    assert InOrder(sys, t);
    if sys.locks == map[] { Nobody(sys); }
    LockingGood(sys, t, task, Flagging(task.pc.s, task.pc.rest));
  }

  lemma EnterAgain<I(!new), M(!new)>(sys: System<I, M>, t: nat, call: Op<I, M>)
    requires Good(sys) && t in sys.threads && sys.threads[t].pc.Enter? && Depth(sys.threads[t]) > 0
    ensures Good(Move(sys, t, call))
  {
    hide Good, Inv, Calm, Begin, HeldIx, EachIx;
    var task := sys.threads[t];
    GoodDonated(sys);
    Alone(sys, t);
    if task.pc.s < |sys.mem.locks| {
      Holds(sys, t, task.(pc := Flagging(task.pc.s, task.pc.rest)), Move(sys, t, call));
    }
  }

  lemma LeaveGood<I(!new), M(!new)>(sys: System<I, M>, t: nat)
    requires Good(sys) && t in sys.threads && sys.threads[t].pc.Leave?
    ensures sys.threads[t].pc.s < |sys.mem.locks|
    ensures Good(Leaving(sys.(locks := Untake(sys.locks, sys.mem.locks[sys.threads[t].pc.s])), t, sys.threads[t]))
  {
    hide Good, Inv, InMark, Calm, HeldIx, Finished, Finish, Working, Leaving, Inside;
    var task := sys.threads[t];
    GoodDonated(sys);
    Alone(sys, t);
    LeaveInside(task, sys.base, sys.mem);
    if task.op.MarkHeld? {
      LeaveHeld(sys, t);
    } else {
      LeaveInner(sys, t);
    }
  }

  lemma LeaveInside<I(!new), M(!new)>(task: Task<I, M>, base: Index<I, M>, mem: Memory<I, M>)
    requires task.pc.Leave? && Inside(task, base, mem)
    ensures InMark(task.op, task.pc, task.cur, base, mem)
    ensures task.pc.rest != [] && task.pc.s < |base.core.all|
  {
    hide InMark;
    LeavePlan(task.op, task.pc.s, task.pc.rest, task.pc.out, task.cur, base, mem);
  }

  /** A mark made on the group itself is over. */
  lemma LeaveHeld<I(!new), M(!new)>(sys: System<I, M>, t: nat)
    requires Good(sys) && t in sys.threads && sys.threads[t].pc.Leave? && sys.threads[t].op.MarkHeld?
    ensures Good(Leaving(sys.(locks := Untake(sys.locks, QueueLock)), t, sys.threads[t]))
  {
    hide Good, Inv, InMark, Calm, HeldIx, Finished, Finish, Inside;
    var task := sys.threads[t];
    Alone(sys, t);
    LeaveInside(task, sys.base, sys.mem);
    LeaveFollows(task.op, task.pc.s, task.pc.rest, task.pc.out, task.cur, sys.base, sys.mem);
    assert Untake(sys.locks, QueueLock) == map[];
    Exits(sys, t, task.op, task.pc.out, Leaving(sys.(locks := map[]), t, task));
  }

  /** A mark made by the queue goes on under the queue's lock. */
  lemma LeaveInner<I(!new), M(!new)>(sys: System<I, M>, t: nat)
    requires Good(sys) && t in sys.threads && sys.threads[t].pc.Leave? && !sys.threads[t].op.MarkHeld?
    ensures Good(Leaving(sys.(locks := Untake(sys.locks, QueueLock)), t, sys.threads[t]))
  {
    hide Good, Inv, InMark, Calm, HeldIx, Finished, Finish, Inside;
    var task := sys.threads[t];
    Alone(sys, t);
    LeaveInside(task, sys.base, sys.mem);
    LeaveFollows(task.op, task.pc.s, task.pc.rest, task.pc.out, task.cur, sys.base, sys.mem);
    var sys1 := sys.(locks := map[QueueLock := Hold(t, 1)]);
    assert Untake(sys.locks, QueueLock) == sys1.locks;
    var task' := Leaving(sys1, t, task).threads[t];
    LeftInside(task, task', sys.base, sys.mem);
    Holds(sys, t, task', Leaving(sys1, t, task));
  }

  lemma LeftInside<I(!new), M(!new)>(task: Task<I, M>, task': Task<I, M>, base: Index<I, M>, mem: Memory<I, M>)
    requires task'.op == task.op && !task.op.MarkHeld?
    requires task'.pc.Unlocking? || task'.pc.Enter?
    requires task'.pc.Unlocking? ==> Finished(task.op, task'.pc.out, base, mem)
    requires task'.pc.Enter? ==> InMark(task.op, task'.pc, task'.cur, base, mem)
    ensures Inside(task', base, mem) && Depth(task') == 1
  {
    hide InMark, Finished;
  }

  lemma LeavePlan<I(!new), M(!new)>(op: Op<I, M>, s: nat, rest: seq<M>, out: Outcome,
                                    cur: Index<I, M>, base: Index<I, M>, mem: Memory<I, M>)
    requires InMark(op, Leave(s, rest, out), cur, base, mem)
    ensures rest != [] && s < |base.core.all|
  {
    hide Inv, Calm, HeldIx, EachIx;
  }

  /** An inner block opens at once and closes again, one level deeper and back: what the holder
      wants is the lock it has. */
  lemma NestMoves<I(!new), M(!new)>(sys: System<I, M>, t: nat, call: Op<I, M>)
    requires Good(sys) && t in sys.threads && (sys.threads[t].pc.Taking? || sys.threads[t].pc.Giving?)
    ensures var task := sys.threads[t];
      var task' := task.(pc := task.pc.next);
      && Depth(task) > 0 && Depth(task') == (if task.pc.Taking? then Depth(task) + 1 else Depth(task) - 1) > 0
      && LockOf(task.pc.via, sys.mem) == Some(QueueLock)
      && Move(sys, t, call) ==
           sys.(locks := map[QueueLock := Hold(t, Depth(task'))], threads := sys.threads[t := task'])
  {
    hide Inv, Calm, Working, Begin, Advance;
    assert InOrder(sys, t);
    GoodDonated(sys);
  }

  lemma NestGood<I(!new), M(!new)>(sys: System<I, M>, t: nat, call: Op<I, M>)
    requires Good(sys) && t in sys.threads && (sys.threads[t].pc.Taking? || sys.threads[t].pc.Giving?)
    ensures Good(Move(sys, t, call))
  {
    hide Good, Inv, Calm, Working, Depth, Move;
    NestMoves(sys, t, call);
    Alone(sys, t);
    Holds(sys, t, sys.threads[t].(pc := sys.threads[t].pc.next), Move(sys, t, call));
  }

  lemma UnlockGood<I(!new), M(!new)>(sys: System<I, M>, t: nat, call: Op<I, M>)
    requires Good(sys) && t in sys.threads && sys.threads[t].pc.Unlocking?
    ensures Good(Move(sys, t, call))
  {
    hide Inv, Calm, Begin, Finished;
    var task := sys.threads[t];
    Alone(sys, t);
    assert Untake(sys.locks, QueueLock) == map[];
    Exits(sys, t, task.op, task.pc.out, Move(sys, t, call));
  }

  /** The next micro-step takes and gives back no lock. */
  ghost predicate AtWork<I, M>(pc: Pc<I, M>) {
    !pc.Enter? && !pc.Leave? && !pc.Unlocking? && !pc.Taking? && !pc.Giving?
  }

  /** The work done under the lock. */
  lemma AdvanceFollows<I(!new), M(!new)>(task: Task<I, M>, base: Index<I, M>, mem: Memory<I, M>)
    requires Inv(base) && Depth(task) > 0 && Inside(task, base, mem)
    requires AtWork(task.pc)
    ensures var (task', mem') := Advance(task, mem);
      Depth(task') == Depth(task) && Inside(task', base, mem')
  {
    hide Inv, Calm, InAdmit, InMark, InRemove, InWipe, Finished;
    hide AdmitMicro, MarkMicro, RemoveMicro, WipeMicro, SeekMicro;
    AdvanceShape(task, base, mem);
    if task.pc.Seek? {
      SeekFollows(task.op, base);
    } else if task.pc.Looking? {
      LookFollows(task.pc.m, base);
    } else if Clearing(task.pc) {
      WipeFollows(task.op, task.pc, base, mem);
    } else if Removing(task.pc) {
      RemoveFollows(task, base, mem);
    } else if Marking(task.pc) {
      MarkFollows(task.op, task.pc, task.cur, base, mem);
    } else {
      AdmitFollows(task.op, task.pc, base, mem);
    }
  }

  /** A micro-step stays within its family, or ends it, at the depth it was. */
  lemma AdvanceShape<I(!new), M(!new)>(task: Task<I, M>, base: Index<I, M>, mem: Memory<I, M>)
    requires Depth(task) > 0 && Inside(task, base, mem)
    requires AtWork(task.pc)
    ensures var task' := Advance(task, mem).0;
      var goal := Goal(task'.pc);
      && task'.op == task.op && Depth(task') == Depth(task) && Nested(task.op, task'.pc, |base.core.all|)
      && (Admitting(task.pc) ==> Admitting(goal) || goal.Unlocking?)
      && (Marking(task.pc) ==> Marking(goal) || goal.Leave?)
      && (Removing(task.pc) ==> Removing(goal) || goal.Unlocking?)
      && (Clearing(task.pc) ==> Clearing(goal) || goal.Unlocking?)
      && (task.pc.Looking? ==> goal.Enter? || goal.Unlocking?)
      && (task.pc.Seek? ==> goal.Unlocking? || goal.Enter? || goal.Looking? || Clearing(goal) || Removing(goal))
      && (Admitting(task.pc) || Marking(task.pc) || Clearing(task.pc) ==> goal == task'.pc)
      && (!Removing(task.pc) ==> task'.cur == task.cur)
  {
    hide Calm, Inv, InMark, InRemove, InWipe, Finished, RemoveMicro, SeekMicro, LookMicro;
    if Removing(task.pc) {
      RemoveShape(task, base, mem);
    } else if task.pc.Seek? {
      SeekShape(task.op, mem, |base.core.all|);
    } else if task.pc.Looking? {
      LookShape(task.op, task.pc.m, mem, |base.core.all|);
    }
  }

  lemma SeekShape<I(!new), M(!new)>(op: Op<I, M>, mem: Memory<I, M>, groups: nat)
    requires !op.Admit? && !op.MarkHeld?
    ensures var pc := SeekMicro(op, mem);
      && DepthAt(op, pc) == 1 && Nested(op, pc, groups)
      && (Goal(pc).Unlocking? || Goal(pc).Enter? || Goal(pc).Looking? || Clearing(Goal(pc)) || Removing(Goal(pc)))
  {
    if op.ReleaseAll? {
      AgainShape(op, [], groups);
    }
  }

  lemma LookShape<I(!new), M(!new)>(op: Op<I, M>, m: M, mem: Memory<I, M>, groups: nat)
    requires !op.MarkHeld?
    ensures var pc := LookMicro(m, mem);
      DepthAt(op, pc) == 2 && Nested(op, pc, groups) && (Goal(pc).Enter? || Goal(pc).Unlocking?)
  {
  }

  lemma AdvanceGood<I(!new), M(!new)>(sys: System<I, M>, t: nat, task': Task<I, M>, mem': Memory<I, M>)
    requires Good(sys) && t in sys.threads && Depth(sys.threads[t]) > 0
    requires AtWork(sys.threads[t].pc)
    requires (task', mem') == Advance(sys.threads[t], sys.mem)
    ensures Good(sys.(mem := mem', threads := sys.threads[t := task']))
  {
    hide Inv, Calm, Inside, Advance, Outside;
    Alone(sys, t);
    AdvanceFollows(sys.threads[t], sys.base, sys.mem);
    Holds(sys, t, task', sys.(mem := mem', threads := sys.threads[t := task']));
  }

  lemma CallGood<I(!new), M(!new)>(sys: System<I, M>, t: nat, call: Op<I, M>)
    requires Good(sys) && t !in sys.threads
    requires call.MarkHeld? ==> call.seqno < |sys.base.core.all|
    ensures Good(sys.(threads := sys.threads[t := Task(call, Pc.Start, sys.base)]))
  {
    Roams(sys, t, Task(call, Pc.Start, sys.base), sys.(threads := sys.threads[t := Task(call, Pc.Start, sys.base)]));
  }

  lemma StepGood<I(!new), M(!new)>(sys: System<I, M>, t: nat, call: Op<I, M>)
    requires Good(sys)
    ensures Good(Move(sys, t, call))
  {
    hide Good, Finish, Locking, Leaving, Advance, Begin;
    if t !in sys.threads {
      if call.MarkHeld? ==> call.seqno < |sys.base.core.all| { CallGood(sys, t, call); }
    } else {
      var task := sys.threads[t];
      match task.pc
      case Start => BeginGood(sys, t);
      case Built(_) => BuiltGood(sys, t);
      case Enter(_, _) => EnterGood(sys, t, call);
      case Leave(_, _, _) => LeaveGood(sys, t);
      case Taking(_, _) => NestGood(sys, t, call);
      case Giving(_, _) => NestGood(sys, t, call);
      case Unlocking(_) => UnlockGood(sys, t, call);
      case _ =>
        var (task', mem') := Advance(task, sys.mem);
        AdvanceGood(sys, t, task', mem');
    }
  }

  // ---------- every schedule ----------

  ghost function Ops<I, M>(log: seq<Event<I, M>>): seq<Op<I, M>> {
    seq(|log|, i requires 0 <= i < |log| => log[i].op)
  }

  ghost function Outs<I, M>(log: seq<Event<I, M>>): seq<Outcome> {
    seq(|log|, i requires 0 <= i < |log| => log[i].out)
  }

  /** The finished calls, one after the other, explain the queue and every answer given. */
  ghost predicate Explained<I, M>(strict: bool, sys: System<I, M>) {
    && sys.base == IxAfter(InitIx<I, M>(strict), Ops(sys.log))
    && Outs(sys.log) == IxOutcomes(InitIx<I, M>(strict), Ops(sys.log))
  }

  lemma FinishExplained<I(!new), M(!new)>(strict: bool, sys: System<I, M>, t: nat, op: Op<I, M>, out: Outcome)
    requires Explained(strict, sys) && out == IndexStep(sys.base, op).1
    ensures Explained(strict, Finish(sys, t, op, out))
  {
    hide IndexStep;
    var log' := sys.log + [Event(t, op, out)];
    assert Ops(log')[..|log'| - 1] == Ops(sys.log) && Ops(log')[|log'| - 1] == op;
    assert Outs(log') == Outs(sys.log) + [out];
  }

  /** Only these fields matter to the explanation. */
  lemma SameExplained<I(!new), M(!new)>(strict: bool, sys: System<I, M>, sys': System<I, M>)
    requires Explained(strict, sys) && sys'.log == sys.log && sys'.base == sys.base
    ensures Explained(strict, sys')
  {
  }

  lemma LeaveExplained<I(!new), M(!new)>(strict: bool, sys: System<I, M>, t: nat, call: Op<I, M>)
    requires Good(sys) && Explained(strict, sys) && t in sys.threads
    requires sys.threads[t].pc.Leave?
    ensures Explained(strict, Move(sys, t, call))
  {
    hide Explained, Inv, Calm, IndexStep, Advance, Begin, InMark;
    var task := sys.threads[t];
    Alone(sys, t);
    LeaveFollows(task.op, task.pc.s, task.pc.rest, task.pc.out, task.cur, sys.base, sys.mem);
    var s := task.pc.s;
    if s < |sys.mem.locks| {
      var sys1 := sys.(locks := Untake(sys.locks, sys.mem.locks[s]));
      SameExplained(strict, sys, sys1);
      if task.op.MarkHeld? {
        FinishExplained(strict, sys1, t, task.op, task.pc.out);
      } else {
        SameExplained(strict, sys, Move(sys, t, call));
      }
    }
  }

  lemma UnlockExplained<I(!new), M(!new)>(strict: bool, sys: System<I, M>, t: nat, call: Op<I, M>)
    requires Good(sys) && Explained(strict, sys) && t in sys.threads
    requires sys.threads[t].pc.Unlocking?
    ensures Explained(strict, Move(sys, t, call))
  {
    hide Explained, Inv, Calm, IndexStep, Advance, Begin;
    var task := sys.threads[t];
    Alone(sys, t);
    var sys1 := sys.(locks := Untake(sys.locks, QueueLock));
    SameExplained(strict, sys, sys1);
    FinishExplained(strict, sys1, t, task.op, task.pc.out);
  }

  lemma StepExplained<I(!new), M(!new)>(strict: bool, sys: System<I, M>, t: nat, call: Op<I, M>)
    requires Good(sys) && Explained(strict, sys)
    ensures Explained(strict, Move(sys, t, call))
  {
    hide Explained, Inv, Calm, IndexStep, Advance, Inside, Good;
    var sys' := Move(sys, t, call);
    if t in sys.threads && sys.threads[t].pc.Leave? {
      LeaveExplained(strict, sys, t, call);
    } else if t in sys.threads && sys.threads[t].pc.Unlocking? {
      UnlockExplained(strict, sys, t, call);
    } else if sys'.log == sys.log && sys'.base == sys.base {
      SameExplained(strict, sys, sys');
    } else {
      var op := sys.threads[t].op;
      RefusedAt(sys, t);
      FinishExplained(strict, sys, t, op, Rejected);
    }
  }

  lemma RefusedAt<I(!new), M(!new)>(sys: System<I, M>, t: nat)
    requires Good(sys) && t in sys.threads && sys.threads[t].pc.Start?
    requires var op := sys.threads[t].op;
      op.Admit? && (op.members.Text? || op.members.items == [] || !Distinct(op.members.items))
    ensures IndexStep(sys.base, sys.threads[t].op).1 == Rejected
  {
    Refused(sys, t, sys.threads[t].op);
  }

  lemma {:induction false} RunGood<I(!new), M(!new)>(strict: bool, schedule: seq<Choice<I, M>>)
    ensures Good(Run(InitSys<I, M>(strict), schedule))
    ensures Explained(strict, Run(InitSys<I, M>(strict), schedule))
  {
    hide Good, Explained, Move;
    if schedule == [] {
      InitGood<I, M>(strict);
    } else {
      var front, last := schedule[..|schedule| - 1], schedule[|schedule| - 1];
      RunGood(strict, front);
      StepGood(Run(InitSys<I, M>(strict), front), last.thread, last.call);
      StepExplained(strict, Run(InitSys<I, M>(strict), front), last.thread, last.call);
    }
  }

  lemma InitGood<I(!new), M(!new)>(strict: bool)
    ensures Good(InitSys<I, M>(strict)) && Explained(strict, InitSys<I, M>(strict))
  {
  }

  /** Serializability: after any schedule the finished calls, in the order they finished, are a
      sequential run of the discipline that gives every caller the answer it got; and whenever
      the lock is free, shared memory is exactly what that run leaves, with every redundant
      part agreeing. */
  lemma Serializable<I(!new), M(!new)>(strict: bool, schedule: seq<Choice<I, M>>)
    ensures var sys := Run(InitSys<I, M>(strict), schedule);
      && Outs(sys.log) == Outcomes(Init<I, M>(strict), Ops(sys.log))
      && sys.base.core == After(Init<I, M>(strict), Ops(sys.log)) && Inv(sys.base)
      && (sys.locks == map[] ==> sys.mem == Calm(sys.base))
  {
    hide Calm, Inv;
    RunGood(strict, schedule);
    RunRefines<I, M>(strict, Ops(Run(InitSys<I, M>(strict), schedule).log));
  }

  /** Lock donation and mutual exclusion: in every reachable state every published group carries
      the queue's lock; any thread past taking it, marks of a group's members included, owns it
      at exactly the depth its position calls for; no two threads are inside at once; and the lock
      is free exactly when nobody is inside, so no call leaves it behind. */
  lemma DonationHolds<I(!new), M(!new)>(strict: bool, schedule: seq<Choice<I, M>>)
    ensures var sys := Run(InitSys<I, M>(strict), schedule);
      && Donation(sys.mem)
      && (forall t | t in sys.threads && Depth(sys.threads[t]) > 0 ::
            sys.locks == map[QueueLock := Hold(t, Depth(sys.threads[t]))])
      && (forall t, u | t in sys.threads && u in sys.threads
            && Depth(sys.threads[t]) > 0 && Depth(sys.threads[u]) > 0 :: t == u)
      && (sys.locks == map[] <==> forall t | t in sys.threads :: Depth(sys.threads[t]) == 0)
  {
    hide Inside, Inv, Calm, Donation, Depth;
    RunGood(strict, schedule);
    var sys := Run(InitSys<I, M>(strict), schedule);
    GoodDonated(sys);
    forall t | t in sys.threads && Depth(sys.threads[t]) > 0
      ensures sys.locks == map[QueueLock := Hold(t, Depth(sys.threads[t]))]
    {
      Alone(sys, t);
    }
    if sys.locks == map[] { Nobody(sys); }
    forall t, u | t in sys.threads && u in sys.threads && Depth(sys.threads[t]) > 0 && Depth(sys.threads[u]) > 0
      ensures t == u
    {
      Alone(sys, t);
    }
  }

  /** Reentrancy: in every reachable state a `with` block inside another, be it of the queue or of
      the group it asks or marks, opens at once and one level deeper, and when it closes the
      holder is back at the level it had and still holds the lock. */
  lemma InnerBlocks<I(!new), M(!new)>(strict: bool, schedule: seq<Choice<I, M>>, t: nat, call: Op<I, M>)
    requires t in Run(InitSys<I, M>(strict), schedule).threads
    ensures var sys := Run(InitSys<I, M>(strict), schedule);
      var task, after := sys.threads[t], Move(sys, t, call);
      && (task.pc.Taking? || (task.pc.Enter? && !task.op.MarkHeld?) ==>
            && sys.locks == map[QueueLock := Hold(t, Depth(task))]
            && after.locks == map[QueueLock := Hold(t, Depth(task) + 1)])
      && (task.pc.Giving? || (task.pc.Leave? && !task.op.MarkHeld?) ==>
            Depth(task) >= 2 && after.locks == map[QueueLock := Hold(t, Depth(task) - 1)])
  {
    hide Good, Inv, Calm, Working, Move, Depth, Inside, Outside;
    RunGood(strict, schedule);
    var sys := Run(InitSys<I, M>(strict), schedule);
    var task := sys.threads[t];
    if task.pc.Taking? || task.pc.Giving? {
      NestMoves(sys, t, call);
      Alone(sys, t);
    } else if (task.pc.Enter? || task.pc.Leave?) && !task.op.MarkHeld? {
      MarkBlocks(sys, t, call);
    }
  }

  lemma MarkBlocks<I(!new), M(!new)>(sys: System<I, M>, t: nat, call: Op<I, M>)
    requires Good(sys) && t in sys.threads && !sys.threads[t].op.MarkHeld?
    requires sys.threads[t].pc.Enter? || sys.threads[t].pc.Leave?
    ensures var task, after := sys.threads[t], Move(sys, t, call);
      && sys.locks == map[QueueLock := Hold(t, Depth(task))]
      && (task.pc.Enter? ==> after.locks == map[QueueLock := Hold(t, Depth(task) + 1)])
      && (task.pc.Leave? ==> Depth(task) >= 2 && after.locks == map[QueueLock := Hold(t, Depth(task) - 1)])
  {
    hide Good, Inv, Calm, Inside, Outside, Advance, Begin, HeldIx;
    Alone(sys, t);
    GoodDonated(sys);
    EnterAt(sys.threads[t], sys.base, sys.mem);
  }

  /** How often the lock is held, in figures: once by an admission, a clearing or a cancellation at
      work; twice where mark_ready looks up the group, and while the queue marks a member; once
      while a caller marks a member of a group it holds; and while strict peek asks the head whether
      it is ready, twice, three times in release and four times in release_all. */
  lemma DepthsInFigures<I(!new), M(!new)>(strict: bool, schedule: seq<Choice<I, M>>, t: nat)
    requires t in Run(InitSys<I, M>(strict), schedule).threads
    ensures var sys := Run(InitSys<I, M>(strict), schedule);
      var task := sys.threads[t];
      && (Admitting(task.pc) || Clearing(task.pc) || (Removing(task.pc) && task.op.Cancel?) ==>
            sys.locks == map[QueueLock := Hold(t, 1)])
      && (task.pc.Looking? ==> sys.locks == map[QueueLock := Hold(t, 2)])
      && (Marking(task.pc) ==> sys.locks == map[QueueLock := Hold(t, if task.op.MarkHeld? then 1 else 2)])
      && (task.pc.Asking? ==>
            && (task.op.Peek? || task.op.Release? || task.op.ReleaseAll?)
            && sys.locks == map[QueueLock := Hold(t, if task.op.Peek? then 2 else if task.op.Release? then 3 else 4)])
  {
    hide Good, Inv, Calm, Inside, Outside;
    RunGood(strict, schedule);
    var sys := Run(InitSys<I, M>(strict), schedule);
    if Depth(sys.threads[t]) > 0 {
      Alone(sys, t);
      if sys.threads[t].pc.Asking? || Removing(sys.threads[t].pc) { RemovalOps(sys.threads[t], sys.base, sys.mem); }
    }
  }

  lemma RemovalOps<I(!new), M(!new)>(task: Task<I, M>, base: Index<I, M>, mem: Memory<I, M>)
    requires Removing(task.pc) && Inside(task, base, mem)
    ensures task.op.Peek? || task.op.Release? || task.op.ReleaseAll? || task.op.Cancel?
    ensures task.op.Cancel? ==> !task.pc.Peeking? && !task.pc.Asking?
  {
    hide InRemove;
    RemoveScope(task, base, mem);
  }

  /** Under any schedule no two finished calls, of one thread or of several, are given the same
      group. */
  lemma NobodyGetsItTwice<I(!new), M(!new)>(strict: bool, schedule: seq<Choice<I, M>>, i: nat, j: nat, s: nat)
    requires i < j < |Run(InitSys<I, M>(strict), schedule).log|
    ensures var log := Run(InitSys<I, M>(strict), schedule).log;
      s in Handed(log[i].op, log[i].out) ==> s !in Handed(log[j].op, log[j].out)
  {
    hide Inv, Calm;
    Serializable(strict, schedule);
    NeverHandedTwice<I, M>(strict, Ops(Run(InitSys<I, M>(strict), schedule).log), i, j, s);
  }

  // ---------- no deadlock ----------

  lemma MarkMoves<I(!new), M(!new)>(task: Task<I, M>, base: Index<I, M>, mem: Memory<I, M>)
    requires Marking(task.pc) && InMark(task.op, task.pc, task.cur, base, mem)
    ensures MarkMicro(task.pc, mem).0 != task.pc
  {
    hide Inv, HeldIx, EachIx, IndexOf;
  }

  lemma AdvanceMoves<I(!new), M(!new)>(task: Task<I, M>, base: Index<I, M>, mem: Memory<I, M>)
    requires Depth(task) > 0 && Inside(task, base, mem)
    requires AtWork(task.pc)
    ensures Advance(task, mem) != (task, mem)
  {
    hide Inv, InMark, InRemove, Calm, Compact, Settle, Drop;
    if Marking(task.pc) {
      MarkMoves(task, base, mem);
    } else if task.pc.Asking? {
      AskScope(task, base, mem);
    }
  }

  lemma HolderMoves<I(!new), M(!new)>(sys: System<I, M>, t: nat, call: Op<I, M>)
    requires Good(sys) && t in sys.threads && Depth(sys.threads[t]) > 0
    ensures Move(sys, t, call) != sys
  {
    hide Good, Inv, Inside, Outside, Calm, Advance, Begin, Take, Untake, Locking, Leaving;
    Alone(sys, t);
    GoodDonated(sys);
    var task := sys.threads[t];
    if task.pc.Enter? || task.pc.Leave? {
      EnterAt(task, sys.base, sys.mem);
      LockMoves(sys, t, call);
    } else if task.pc.Taking? || task.pc.Giving? {
      NestMoves(sys, t, call);
    } else if !task.pc.Unlocking? {
      AdvanceMoves(task, sys.base, sys.mem);
    }
  }

  lemma LockMoves<I(!new), M(!new)>(sys: System<I, M>, t: nat, call: Op<I, M>)
    requires t in sys.threads && (sys.threads[t].pc.Enter? || sys.threads[t].pc.Leave?)
    requires sys.threads[t].pc.s < |sys.mem.locks| && sys.mem.locks[sys.threads[t].pc.s] == QueueLock
    requires sys.locks == map[QueueLock := Hold(t, Depth(sys.threads[t]))]
    ensures Move(sys, t, call) != sys
  {
    hide Advance, Begin, IndexStep, HeldIx;
    var task := sys.threads[t];
    if task.pc.Enter? {
      assert Move(sys, t, call).locks[QueueLock].depth == sys.locks[QueueLock].depth + 1;
    } else {
      assert t in Move(sys, t, call).threads ==> !Move(sys, t, call).threads[t].pc.Leave?;
    }
  }

  lemma EnterAt<I(!new), M(!new)>(task: Task<I, M>, base: Index<I, M>, mem: Memory<I, M>)
    requires (task.pc.Enter? || task.pc.Leave?) && Inside(task, base, mem)
    ensures task.pc.s < |base.core.all| && task.pc.rest != []
  {
    hide Inv, Calm, HeldIx, EachIx;
  }

  lemma OutsiderMoves<I(!new), M(!new)>(sys: System<I, M>, t: nat, call: Op<I, M>)
    requires Good(sys) && t in sys.threads && Depth(sys.threads[t]) == 0 && sys.locks == map[]
    ensures Move(sys, t, call) != sys
  {
    hide Inv, Inside, Calm, Advance;
    Nobody(sys);
    GoodDonated(sys);
  }

  /** The one lock cannot deadlock: in every reachable state with a call in progress, some
      thread can take a step, whatever the others do. */
  lemma NoDeadlock<I(!new), M(!new)>(strict: bool, schedule: seq<Choice<I, M>>, call: Op<I, M>)
    requires Run(InitSys<I, M>(strict), schedule).threads != map[]
    ensures var sys := Run(InitSys<I, M>(strict), schedule);
      exists t :: t in sys.threads && Move(sys, t, call) != sys
  {
    hide Inv, Inside, Outside, Calm, Depth, Move;
    RunGood(strict, schedule);
    var sys := Run(InitSys<I, M>(strict), schedule);
    if sys.locks == map[] {
      var t :| t in sys.threads;
      Nobody(sys);
      OutsiderMoves(sys, t, call);
    } else {
      var t :| t in sys.threads && Depth(sys.threads[t]) > 0;
      HolderMoves(sys, t, call);
    }
  }
}
