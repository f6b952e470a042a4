/** Nobody stays inside for ever.

`Interleaving` shows that some thread can always move. Here a count of the micro-steps that the
holder of the lock has left falls with each of its steps and is not touched by the steps of the
others, so whoever keeps being scheduled gives the lock back. */
module Progress {
  import opened Lists
  import opened Discipline
  import opened Guarantees
  import opened ReadyIndex
  import opened Threads
  import opened Protocol
  import opened Interleaving

  // ---------- how much is left ----------

  /** Taking one group out of the line: a step for each of its members, and a few more. */
  ghost function LeaveWork<I, M>(all: seq<Party<I, M>>, s: nat): nat {
    (if s < |all| then |all[s].members| else 0) + 14
  }

  ghost function LineWork<I, M>(all: seq<Party<I, M>>, line: seq<nat>): nat {
    if line == [] then 0 else LeaveWork(all, line[0]) + LineWork(all, line[1..])
  }

  lemma {:induction false} LineWithout<I, M>(all: seq<Party<I, M>>, line: seq<nat>, s: nat)
    requires Distinct(line) && s in line
    ensures LineWork(all, Drop(line, {s})) + LeaveWork(all, s) == LineWork(all, line)
  {
    if line[0] == s {
      DistinctTail(line);
      DropNothing(line[1..], {s});
      assert Drop(line, {s}) == line[1..];
    } else {
      LineWithout(all, line[1..], s);
      var rest := Drop(line[1..], {s});
      assert ([line[0]] + rest)[1..] == rest;
    }
  }

  /** Everything a release_all may still have to do. */
  ghost function QueueWork<I, M>(ix: Index<I, M>): nat {
    LineWork(ix.core.all, ix.core.waiting) + |ix.heap|
  }

  ghost function SizeOf<I, M>(ix: Index<I, M>, s: nat): nat {
    if s < |ix.core.all| then |ix.core.all[s].members| else 0
  }

  ghost function WorkAt<I, M>(op: Op<I, M>, pc: Pc<I, M>, mem: Memory<I, M>): nat {
    match pc
    case Taking(_, next) => 1 + WorkAt(op, next, mem)
    case Giving(_, next) => 1 + WorkAt(op, next, mem)
    case Unlocking(_) => 1
    case Linking(_) => 2
    case Indexing(s, k) => 3 + if k < SizeOf(mem.ix, s) then SizeOf(mem.ix, s) - k else 0
    case Donated(g) => 4 + |g.members|
    case Numbered(g) => 5 + |g.members|
    case Checking(g) => 6 + |g.members|
    case Enter(_, rest) => 8 * |rest| + 8
    case Flagging(_, rest) => 8 * |rest| + 7
    case Counting(_, rest) => 8 * |rest| + 6
    case Testing(_, rest) => 8 * |rest| + 5
    case Noting(_, rest) => 8 * |rest| + 4
    case Pushing(_, rest) => 8 * |rest| + 3
    case Leave(_, rest, _) => 8 * |rest| + 2
    case Looking(_) => 18
    case Cutting(k, line) => 6 + if k < |line| then |line| - k else 0
    case Wiping(stage, _) => if stage < 3 then 5 - stage else 2
    case Peeking(_) => QueueWork(mem.ix) + 7
    case Asking(_, _) => QueueWork(mem.ix) + 5
    case Delist(_, _) => QueueWork(mem.ix) + 1
    case Deindex(s, k, _) => QueueWork(mem.ix) + 14 + if k < SizeOf(mem.ix, s) then SizeOf(mem.ix, s) - k else 0
    case Unlink(_, _) => QueueWork(mem.ix) + 13
    case Retire(_, _) => QueueWork(mem.ix) + 12
    case Compacting(_, _) => QueueWork(mem.ix) + 11
    case _ => 0
  }

  ghost function Work<I(!new), M(!new)>(task: Task<I, M>, mem: Memory<I, M>): nat {
    if task.pc.Seek? then 1 + WorkAt(task.op, SeekMicro(task.op, mem), mem) else WorkAt(task.op, task.pc, mem)
  }

  /** The members of the groups in this line, all together. */
  ghost function Members<I, M>(all: seq<Party<I, M>>, line: seq<nat>): nat {
    if line == [] then 0 else (if line[0] < |all| then |all[line[0]].members| else 0) + Members(all, line[1..])
  }

  lemma {:induction false} LineInFigures<I, M>(all: seq<Party<I, M>>, line: seq<nat>)
    ensures LineWork(all, line) == 14 * |line| + Members(all, line)
  {
    if line != [] { LineInFigures(all, line[1..]); }
  }

  /** The work of a call that has just taken the lock, in figures: constant for a single mark or
      look-up; linear in the group for an admission or a whole-group mark; linear in the line, its
      members and the heap for what may empty them. */
  lemma WorkInFigures<I(!new), M(!new)>(task: Task<I, M>, mem: Memory<I, M>)
    ensures var c := mem.ix.core;
      var queue := 14 * |c.waiting| + Members(c.all, c.waiting) + |mem.ix.heap|;
      && (task.pc.Checking? ==> Work(task, mem) == 6 + |task.pc.g.members|)
      && (task.pc.Flagging? && |task.pc.rest| == 1 ==> Work(task, mem) == 15)
      && (task.pc.Seek? ==>
            match task.op
            case MarkReady(_) => Work(task, mem) == 20
            case GroupOf(_) => Work(task, mem) == 2
            case MarkGroup(id) =>
              Work(task, mem) <= (if c.Find(id).Some? && c.Find(id).value < |c.all|
                                  then 8 * |c.all[c.Find(id).value].members| + 9 else 2)
            case Clear => Work(task, mem) == 7 + |c.waiting|
            case Cancel(_) => Work(task, mem) <= queue + 2
            case Peek => Work(task, mem) == queue + 8
            case Release => Work(task, mem) == queue + 9
            case ReleaseAll => Work(task, mem) == queue + 10
            case _ => true)
  {
    hide LineWork, Members, Lookup, First;
    LineInFigures(mem.ix.core.all, mem.ix.core.waiting);
    var peeking: Pc<I, M> := Peeking([]);
    var inner: Pc<I, M> := Taking(Own, peeking);
    assert WorkAt(task.op, peeking, mem) == QueueWork(mem.ix) + 7;
    assert WorkAt(task.op, inner, mem) == QueueWork(mem.ix) + 8;
    assert WorkAt(task.op, Again([]), mem) == QueueWork(mem.ix) + 9;
    if task.op.MarkReady? {
      var looking: Pc<I, M> := Looking(task.op.member);
      assert WorkAt(task.op, looking, mem) == 18;
    }
  }

  // ---------- every micro-step does some of it ----------

  lemma AnsweredWork<I, M>(op: Op<I, M>, next: Option<nat>, acc: seq<nat>, mem: Memory<I, M>)
    ensures WorkAt(op, Answered(op, next, acc), mem) <= QueueWork(mem.ix) + 3
    ensures !Answered(op, next, acc).Seek?
  {
    var last: Pc<I, M> := Giving(Own, Unlocking(Many(acc)));
    assert WorkAt(op, last, mem) == 2;
  }

  lemma AgainWork<I, M>(op: Op<I, M>, acc: seq<nat>, mem: Memory<I, M>)
    ensures WorkAt(op, Giving(Own, Again(acc)), mem) == QueueWork(mem.ix) + 10
  {
    var inner: Pc<I, M> := Taking(Own, Peeking(acc));
    assert WorkAt(op, inner, mem) == QueueWork(mem.ix) + 8;
    assert WorkAt(op, Again(acc), mem) == QueueWork(mem.ix) + 9;
  }

  lemma PeekFalls<I(!new), M(!new)>(task: Task<I, M>, mem: Memory<I, M>)
    requires task.pc.Peeking? || task.pc.Asking?
    requires task.pc.Asking? ==> task.pc.s < |mem.ix.core.all| && task.pc.s < |mem.counts|
    ensures var (task', mem') := RemoveMicro(task, mem); Work(task', mem') < Work(task, mem)
  {
    hide Answered, LineWork;
    var ix, acc := mem.ix, task.pc.acc;
    if task.pc.Asking? {
      var s := task.pc.s;
      var next := if mem.counts[s] == |ix.core.all[s].members| then Some(s) else None;
      AnsweredWork(task.op, next, acc, mem);
    } else if ix.core.strict {
      AnsweredWork(task.op, None, acc, mem);
      if ix.core.waiting != [] {
        var asking: Pc<I, M> := Asking(ix.core.waiting[0], acc);
        assert WorkAt(task.op, asking, mem) == QueueWork(ix) + 5;
      }
    } else if ix.heap != {} && Min(ix.heap) !in ix.live {
      assert |ix.heap - {Min(ix.heap)}| == |ix.heap| - 1;
    } else {
      AnsweredWork(task.op, if ix.heap == {} then None else Some(Min(ix.heap)), acc, mem);
    }
  }

  lemma DelistFalls<I(!new), M(!new)>(task: Task<I, M>, mem: Memory<I, M>)
    requires task.pc.Delist? && Distinct(mem.ix.core.waiting) && task.pc.s in mem.ix.core.waiting
    ensures var (task', mem') := RemoveMicro(task, mem); Work(task', mem') < Work(task, mem)
  {
    hide Drop, LineWork, Distinct;
    var s := task.pc.s;
    var gone: seq<nat> := [s];
    assert Elements(gone) == {s};
    LineWithout(mem.ix.core.all, mem.ix.core.waiting, s);
  }

  lemma RestFalls<I(!new), M(!new)>(task: Task<I, M>, mem: Memory<I, M>)
    requires Removing(task.pc) && !task.pc.Peeking? && !task.pc.Asking? && !task.pc.Delist?
    ensures var (task', mem') := RemoveMicro(task, mem); Work(task', mem') < Work(task, mem)
  {
    hide LineWork, State.Depart;
    if task.pc.Retire? || task.pc.Compacting? { RetireFalls(task, mem); }
  }

  lemma RetireFalls<I(!new), M(!new)>(task: Task<I, M>, mem: Memory<I, M>)
    requires task.pc.Retire? || task.pc.Compacting?
    ensures var (task', mem') := RemoveMicro(task, mem); Work(task', mem') < Work(task, mem)
  {
    hide Again, LineWork;
    var (_, mem') := RemoveMicro(task, mem);
    AgainWork(task.op, task.pc.acc + [task.pc.s], mem');
  }

  lemma RemoveFalls<I(!new), M(!new)>(task: Task<I, M>, base: Index<I, M>, mem: Memory<I, M>)
    requires InRemove(task.op, task.pc, task.cur, base, mem)
    ensures var (task', mem') := RemoveMicro(task, mem); Work(task', mem') < Work(task, mem)
  {
    hide InRemove, RemoveMicro, Work;
    RemoveScope(task, base, mem);
    if task.pc.Peeking? || task.pc.Asking? {
      if task.pc.Asking? { AskScope(task, base, mem); }
      PeekFalls(task, mem);
    } else if task.pc.Delist? {
      DelistScope(task, base, mem);
      DelistFalls(task, mem);
    } else {
      RestFalls(task, mem);
    }
  }

  lemma DelistScope<I(!new), M(!new)>(task: Task<I, M>, base: Index<I, M>, mem: Memory<I, M>)
    requires task.pc.Delist? && InRemove(task.op, task.pc, task.cur, base, mem)
    ensures Distinct(mem.ix.core.waiting) && task.pc.s in mem.ix.core.waiting
  {
    hide Exact, Paid, Disjoint, Conserved, InLine, IndexOf, DrainIx, PeekIx, Chosen;
    PeekedKeeps(task.op, task.pc.s, task.cur);
    CalmCarries(Peeked(task.op, task.cur));
  }

  lemma MarkFalls<I(!new), M(!new)>(task: Task<I, M>, base: Index<I, M>, mem: Memory<I, M>)
    requires Marking(task.pc) && InMark(task.op, task.pc, task.cur, base, mem)
    ensures var (pc', mem') := MarkMicro(task.pc, mem); Work(task.(pc := pc'), mem') < Work(task, mem)
  {
    hide InMark, QueueWork;
    MarkMoves(task, base, mem);
  }

  lemma AdmitFalls<I(!new), M(!new)>(task: Task<I, M>, base: Index<I, M>, mem: Memory<I, M>)
    requires Admitting(task.pc) && InAdmit(task.op, task.pc, base, mem)
    ensures var (pc', mem') := AdmitMicro(task.pc, mem); Work(task.(pc := pc'), mem') < Work(task, mem)
  {
    hide IndexOf, QueueWork, Inv, State.CanAdmit, First;
  }

  lemma WipeFalls<I(!new), M(!new)>(task: Task<I, M>, mem: Memory<I, M>)
    requires Clearing(task.pc)
    ensures var (pc', mem') := WipeMicro(task.pc, mem); Work(task.(pc := pc'), mem') < Work(task, mem)
  {
    hide QueueWork, State.Depart;
  }

  lemma LookFalls<I(!new), M(!new)>(task: Task<I, M>, mem: Memory<I, M>)
    requires task.pc.Looking?
    ensures Work(task.(pc := LookMicro(task.pc.m, mem)), mem) < Work(task, mem)
  {
    hide QueueWork, Lookup;
    var s := Lookup(mem, task.pc.m);
    var inner: Pc<I, M> := if s.None? then Unlocking(Rejected) else Enter(s.value, [task.pc.m]);
    assert WorkAt(task.op, inner, mem) <= 16;
  }

  lemma SeekFalls<I(!new), M(!new)>(task: Task<I, M>, mem: Memory<I, M>)
    requires task.pc.Seek?
    ensures Work(task.(pc := SeekMicro(task.op, mem)), mem) < Work(task, mem)
  {
    hide QueueWork, Lookup, WorkAt;
  }

  lemma AdvanceFalls<I(!new), M(!new)>(task: Task<I, M>, base: Index<I, M>, mem: Memory<I, M>)
    requires Depth(task) > 0 && Inside(task, base, mem) && AtWork(task.pc)
    ensures var (task', mem') := Advance(task, mem); Work(task', mem') < Work(task, mem)
  {
    hide Work, InAdmit, InMark, InRemove, InWipe, Finished, Calm, AdmitMicro, MarkMicro, RemoveMicro, WipeMicro;
    hide SeekMicro, LookMicro, Nested;
    if task.pc.Seek? {
      SeekFalls(task, mem);
    } else if task.pc.Looking? {
      LookFalls(task, mem);
    } else if Clearing(task.pc) {
      WipeFalls(task, mem);
    } else if Removing(task.pc) {
      RemoveFalls(task, base, mem);
    } else if Marking(task.pc) {
      MarkFalls(task, base, mem);
    } else {
      AdmitFalls(task, base, mem);
    }
  }

  // ---------- the holder comes out again ----------

  /** Thread `t` is inside. */
  ghost predicate Holding<I, M>(sys: System<I, M>, t: nat) {
    t in sys.threads && Depth(sys.threads[t]) > 0
  }

  /** Whatever the holder does next, it is out, or has less left to do. */
  lemma HolderFalls<I(!new), M(!new)>(sys: System<I, M>, t: nat, call: Op<I, M>)
    requires Good(sys) && Holding(sys, t)
    ensures var after := Move(sys, t, call);
      || after.locks == map[]
      || (Holding(after, t) && Work(after.threads[t], after.mem) < Work(sys.threads[t], sys.mem))
  {
    hide Good, Inv, Calm, Inside, Outside, Work, Advance, Begin, Leaving, Take, Untake, Locking;
    var task := sys.threads[t];
    Alone(sys, t);
    if task.pc.Taking? || task.pc.Giving? {
      NestMoves(sys, t, call);
      NestScope(task, sys.base, sys.mem);
      NestFalls(task, sys.mem);
    } else if task.pc.Enter? || task.pc.Leave? {
      BlockFalls(sys, t, call);
    } else if task.pc.Unlocking? {
      assert Untake(sys.locks, QueueLock) == map[] by { UnlockFrees(t); }
    } else {
      BaseHolds(sys);
      AdvanceFalls(task, sys.base, sys.mem);
      AdvanceFollows(task, sys.base, sys.mem);
    }
  }

  lemma BaseHolds<I(!new), M(!new)>(sys: System<I, M>)
    requires Good(sys)
    ensures Inv(sys.base)
  {
    hide Inv, Calm, InOrder;
  }

  lemma UnlockFrees(t: nat)
    ensures Untake(map[QueueLock := Hold(t, 1)], QueueLock) == map[]
  {
  }

  lemma NestScope<I(!new), M(!new)>(task: Task<I, M>, base: Index<I, M>, mem: Memory<I, M>)
    requires (task.pc.Taking? || task.pc.Giving?) && Inside(task, base, mem)
    ensures !task.pc.next.Seek?
  {
    hide Working;
  }

  /** Opening and closing the block of a mark. */
  lemma BlockFalls<I(!new), M(!new)>(sys: System<I, M>, t: nat, call: Op<I, M>)
    requires Good(sys) && Holding(sys, t) && (sys.threads[t].pc.Enter? || sys.threads[t].pc.Leave?)
    ensures var after := Move(sys, t, call);
      || after.locks == map[]
      || (Holding(after, t) && Work(after.threads[t], after.mem) < Work(sys.threads[t], sys.mem))
  {
    hide Good, Inv, Calm, Inside, Outside, Advance, Begin, HeldIx, QueueWork, IndexStep;
    Alone(sys, t);
    GoodDonated(sys);
    EnterAt(sys.threads[t], sys.base, sys.mem);
  }

  lemma NestFalls<I(!new), M(!new)>(task: Task<I, M>, mem: Memory<I, M>)
    requires task.pc.Taking? || task.pc.Giving?
    requires !task.pc.next.Seek?
    ensures Work(task.(pc := task.pc.next), mem) < Work(task, mem)
  {
    hide QueueWork;
  }

  /** Whatever another thread does meanwhile, the holder is where it was, and so is memory. */
  lemma OthersWait<I(!new), M(!new)>(sys: System<I, M>, t: nat, u: nat, call: Op<I, M>)
    requires Good(sys) && Holding(sys, t) && u != t
    ensures var after := Move(sys, u, call);
      Holding(after, t) && after.threads[t] == sys.threads[t] && after.mem == sys.mem
  {
    hide Good, Inv, Calm, Inside, Depth, Advance, IndexStep, Distinct;
    Alone(sys, t);
    GoodDonated(sys);
    if u in sys.threads { OutsideKinds(sys.threads[u], sys.base); }
  }

  lemma OutsideKinds<I(!new), M(!new)>(task: Task<I, M>, base: Index<I, M>)
    requires Outside(task, base)
    ensures task.pc.Start? || task.pc.Built? || (task.pc.Enter? && task.pc.s < |base.core.all|)
  {
  }

  /** How often thread `t` is scheduled. */
  ghost function Turns<I, M>(schedule: seq<Choice<I, M>>, t: nat): nat {
    if schedule == [] then 0
    else
      var n := |schedule| - 1;
      Turns(schedule[..n], t) + if schedule[n].thread == t then 1 else 0
  }

  /** The lock has come free at some point of this schedule. */
  ghost predicate ComesFree<I(!new), M(!new)>(sys: System<I, M>, schedule: seq<Choice<I, M>>) {
    exists n :: 0 <= n <= |schedule| && Run(sys, schedule[..n]).locks == map[]
  }

  lemma FreeLater<I(!new), M(!new)>(sys: System<I, M>, schedule: seq<Choice<I, M>>)
    requires schedule != []
    ensures ComesFree(sys, schedule[..|schedule| - 1]) ==> ComesFree(sys, schedule)
    ensures Run(sys, schedule).locks == map[] ==> ComesFree(sys, schedule)
  {
    hide Run;
    var m := |schedule| - 1;
    if ComesFree(sys, schedule[..m]) {
      var n :| 0 <= n <= m && Run(sys, schedule[..m][..n]).locks == map[];
      assert schedule[..m][..n] == schedule[..n];
    }
    assert schedule[..|schedule|] == schedule;
  }

  lemma {:induction false} TurnsTell<I(!new), M(!new)>(sys: System<I, M>, schedule: seq<Choice<I, M>>, t: nat)
    requires Good(sys) && Holding(sys, t)
    ensures var after := Run(sys, schedule);
      && Good(after)
      && (ComesFree(sys, schedule)
          || (Holding(after, t)
              && Work(after.threads[t], after.mem) + Turns(schedule, t) <= Work(sys.threads[t], sys.mem)))
  {
    hide Good, Move, Work, ComesFree, Holding;
    if schedule != [] {
      var n := |schedule| - 1;
      var last := schedule[n];
      TurnsTell(sys, schedule[..n], t);
      FreeLater(sys, schedule);
      var before := Run(sys, schedule[..n]);
      StepGood(before, last.thread, last.call);
      if !ComesFree(sys, schedule[..n]) {
        if last.thread == t {
          HolderFalls(before, t, last.call);
        } else {
          OthersWait(before, t, last.thread, last.call);
        }
      }
    }
  }

  /** Nobody stays inside for ever: from every reachable state, once the holder has been given as
      many turns as it has work left, however the others are scheduled in between, the lock has
      been free. */
  lemma LockComesFree<I(!new), M(!new)>(strict: bool, schedule: seq<Choice<I, M>>, more: seq<Choice<I, M>>, t: nat)
    requires Holding(Run(InitSys<I, M>(strict), schedule), t)
    requires var sys := Run(InitSys<I, M>(strict), schedule); Turns(more, t) >= Work(sys.threads[t], sys.mem)
    ensures ComesFree(Run(InitSys<I, M>(strict), schedule), more)
  {
    hide Good, Move, ComesFree, WorkAt, SeekMicro;
    RunGood(strict, schedule);
    var sys := Run(InitSys<I, M>(strict), schedule);
    TurnsTell(sys, more, t);
    if !ComesFree(sys, more) {
      StillSome(Run(sys, more), t);
    }
  }

  /** The holder always has something left to do. */
  lemma StillSome<I(!new), M(!new)>(sys: System<I, M>, t: nat)
    requires Good(sys) && Holding(sys, t)
    ensures Work(sys.threads[t], sys.mem) > 0
  {
    hide Good, Inv, Calm, Working, QueueWork;
    Alone(sys, t);
    if !sys.threads[t].pc.Seek? { WorkThere(sys.threads[t].op, sys.threads[t].pc, sys.mem); }
  }

  lemma WorkThere<I, M>(op: Op<I, M>, pc: Pc<I, M>, mem: Memory<I, M>)
    requires DepthAt(op, pc) > 0 && !pc.Seek?
    ensures WorkAt(op, pc, mem) > 0
  {
    hide QueueWork;
  }
}
