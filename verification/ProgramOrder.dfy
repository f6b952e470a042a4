/** Every thread is served the calls it made, in the order it made them.

`Interleaving` explains the log by a sequential run. Here the log itself is tied to the schedule:
what a thread asked for is read off the schedule and off which threads have a call in progress,
and nothing else. */
module ProgramOrder {
  import opened Lists
  import opened Discipline
  import opened Guarantees
  import opened ReadyIndex
  import opened Threads
  import opened Protocol
  import opened Interleaving

  /** Being scheduled without a call in progress, thread `t` makes this one; only a group that
      some finished call has handed out can be marked directly. */
  ghost predicate Calls<I, M>(sys: System<I, M>, t: nat, call: Op<I, M>) {
    t !in sys.threads && (call.MarkHeld? ==> call.seqno < |sys.base.core.all|)
  }

  /** The calls that the schedule has thread `t` make, in order. */
  ghost function Program<I(!new), M(!new)>(sys: System<I, M>, schedule: seq<Choice<I, M>>, t: nat): seq<Op<I, M>> {
    if schedule == [] then []
    else
      var front, last := schedule[..|schedule| - 1], schedule[|schedule| - 1];
      Program(sys, front, t) + if last.thread == t && Calls(Run(sys, front), t, last.call) then [last.call] else []
  }

  /** The events of thread `t`, in the order of the log. */
  ghost function EventsOf<I, M>(log: seq<Event<I, M>>, t: nat): seq<Event<I, M>> {
    if log == [] then []
    else EventsOf(log[..|log| - 1], t) + if log[|log| - 1].thread == t then [log[|log| - 1]] else []
  }

  ghost function CallInProgress<I, M>(sys: System<I, M>, t: nat): seq<Op<I, M>> {
    if t in sys.threads then [sys.threads[t].op] else []
  }

  /** The calls of thread `t` that are finished or under way. */
  ghost function Served<I, M>(sys: System<I, M>, t: nat): seq<Op<I, M>> {
    Ops(EventsOf(sys.log, t)) + CallInProgress(sys, t)
  }

  lemma AdvanceKeepsCall<I(!new), M(!new)>(task: Task<I, M>, mem: Memory<I, M>)
    ensures Advance(task, mem).0.op == task.op
  {
    hide SeekMicro, LookMicro, AdmitMicro, MarkMicro, WipeMicro, Compact, State.Depart, Answered, Again;
  }

  lemma EventsMore<I, M>(log: seq<Event<I, M>>, e: Event<I, M>, t: nat)
    ensures EventsOf(log + [e], t) == EventsOf(log, t) + if e.thread == t then [e] else []
    ensures Ops(EventsOf(log + [e], t)) == Ops(EventsOf(log, t)) + if e.thread == t then [e.op] else []
  {
    assert (log + [e])[..|log + [e]| - 1] == log;
  }

  /** Either nothing is logged and thread `u` goes on with its call, or its call is logged as its
      own, and it has none any more. */
  ghost predicate Serves<I, M>(sys: System<I, M>, u: nat, sys': System<I, M>) {
    || sys' == sys
    || (sys'.log == sys.log && u in sys.threads && u in sys'.threads && sys'.threads[u].op == sys.threads[u].op
        && sys'.threads == sys.threads[u := sys'.threads[u]])
    || (u in sys.threads && sys'.threads == sys.threads - {u} && |sys'.log| == |sys.log| + 1
        && sys'.log[..|sys.log|] == sys.log
        && sys'.log[|sys.log|].thread == u && sys'.log[|sys.log|].op == sys.threads[u].op)
  }

  lemma MoveServes<I(!new), M(!new)>(sys: System<I, M>, u: nat, call: Op<I, M>)
    requires u in sys.threads
    ensures Serves(sys, u, Move(sys, u, call))
  {
    hide Advance, IndexStep, Take, Untake, Distinct, HeldIx, Depth;
    AdvanceKeepsCall(sys.threads[u], sys.mem);
  }

  lemma ServesOne<I, M>(sys: System<I, M>, u: nat, sys': System<I, M>, t: nat)
    requires Serves(sys, u, sys')
    ensures Served(sys', t) == Served(sys, t)
  {
    if |sys'.log| == |sys.log| + 1 {
      assert sys'.log == sys.log + [sys'.log[|sys.log|]];
      EventsMore(sys.log, sys'.log[|sys.log|], t);
    }
  }

  lemma StartServes<I(!new), M(!new)>(sys: System<I, M>, u: nat, call: Op<I, M>, t: nat)
    requires u !in sys.threads
    ensures Served(Move(sys, u, call), t) == Served(sys, t) + if u == t && Calls(sys, t, call) then [call] else []
  {
    hide EventsOf, Ops;
    var after := Move(sys, u, call);
    assert after.log == sys.log;
    assert u == t && Calls(sys, t, call) ==> CallInProgress(after, t) == [call] && CallInProgress(sys, t) == [];
    assert !(u == t && Calls(sys, t, call)) ==> CallInProgress(after, t) == CallInProgress(sys, t);
  }

  /** Program order: after any schedule the finished calls of each thread, in the order of the log,
      followed by the call it has in progress, are exactly the calls it made, in the order it made
      them. None is lost, repeated, exchanged for another or credited to another thread. */
  lemma {:induction false} ProgramOrder<I(!new), M(!new)>(strict: bool, schedule: seq<Choice<I, M>>, t: nat)
    ensures Served(Run(InitSys<I, M>(strict), schedule), t) == Program(InitSys<I, M>(strict), schedule, t)
  {
    hide Move, Served, Calls;
    var init := InitSys<I, M>(strict);
    if schedule == [] {
      NobodyServed<I, M>(strict, t);
    } else {
      var front, last := schedule[..|schedule| - 1], schedule[|schedule| - 1];
      ProgramOrder(strict, front, t);
      var sys := Run(init, front);
      if last.thread in sys.threads {
        MoveServes(sys, last.thread, last.call);
        ServesOne(sys, last.thread, Move(sys, last.thread, last.call), t);
        BusyCallsNothing(sys, last.thread, last.call);
      } else {
        StartServes(sys, last.thread, last.call, t);
      }
    }
  }

  lemma NobodyServed<I(!new), M(!new)>(strict: bool, t: nat)
    ensures Served(InitSys<I, M>(strict), t) == []
  {
  }

  lemma BusyCallsNothing<I, M>(sys: System<I, M>, t: nat, call: Op<I, M>)
    requires t in sys.threads
    ensures !Calls(sys, t, call)
  {
  }
}
