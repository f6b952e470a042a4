/** What the discipline guarantees over every run, under both ordering policies. */
module Guarantees {
  import opened Lists
  import opened Discipline

  // ---------- the invariant over runs ----------

  lemma FindIs<I, M>(st: State<I, M>, s: nat)
    requires WellFormed(st) && s in st.waiting
    ensures st.Find(st.all[s].id) == Some(s)
    ensures forall m | m in st.all[s].members :: st.Holder(m) == Some(s)
  {
    assert s in st.WithId(st.all[s].id);
    forall m | m in st.all[s].members ensures st.Holder(m) == Some(s) {
      assert s in st.WithMember(m);
      var h := st.Holder(m).value;
      assert m in Elements(st.all[s].members) * Elements(st.all[h].members);
    }
  }

  lemma NextDeparts<I, M>(st: State<I, M>, s: nat)
    requires WellFormed(st) && st.Next() == Some(s)
    ensures s in st.waiting && s in st.ReadySet() && (st.strict ==> s == st.waiting[0])
    ensures WellFormed(st.Depart([s], Left))
  {
    DepartKeeps(st, [s], Left);
  }

  lemma DepartingDeparts<I, M>(st: State<I, M>)
    requires WellFormed(st)
    ensures Increasing(st.Departing())
    ensures forall s | s in st.Departing() :: s in st.waiting && s in st.ReadySet()
    ensures WellFormed(st.Depart(st.Departing(), Left))
  {
    KeepIncreasing(st.waiting, st.ReadySet());
    assert forall s | s in st.Departing() :: s in st.waiting;
    DepartKeeps(st, st.Departing(), Left);
  }

  lemma FlushKeeps<I, M>(st: State<I, M>)
    requires WellFormed(st)
    ensures WellFormed(st.Depart(st.waiting, Flushed))
    ensures st.Depart(st.waiting, Flushed).waiting == []
  {
    DepartKeeps(st, st.waiting, Flushed);
    DropAll(st.waiting, Elements(st.waiting));
  }

  lemma HeldKeeps<I, M>(st: State<I, M>, s: nat, m: M)
    requires WellFormed(st)
    ensures WellFormed(HeldStep(st, s, m).0)
  {
    if st.Holds(s, m) {
      RemarkKeeps(st, s, st.all[s].marked + {m});
    }
  }

  lemma StepKeeps<I, M>(st: State<I, M>, op: Op<I, M>)
    requires WellFormed(st)
    ensures WellFormed(Step(st, op).0)
  {
    match op
    case Admit(id, members) =>
      if members.Items? && st.CanAdmit(id, members.items) { EnterKeeps(st, id, members.items); }
    case MarkReady(m) =>
      if st.Holder(m).Some? { HeldKeeps(st, st.Holder(m).value, m); }
    case MarkGroup(id) =>
      if st.Find(id).Some? {
        var s := st.Find(id).value;
        RemarkKeeps(st, s, Elements(st.all[s].members));
      }
    case MarkHeld(s, m) => HeldKeeps(st, s, m);
    case GroupOf(m) =>
    case Cancel(id) =>
      if st.Find(id).Some? { DepartKeeps(st, [st.Find(id).value], Withdrawn); }
    case Clear => DepartKeeps(st, st.waiting, Flushed);
    case Peek =>
    case Release =>
      if st.Next().Some? { NextDeparts(st, st.Next().value); }
    case ReleaseAll => DepartingDeparts(st);
  }

  lemma {:induction false} RunKeeps<I, M>(st: State<I, M>, ops: seq<Op<I, M>>)
    requires WellFormed(st)
    ensures WellFormed(After(st, ops))
  {
    if ops != [] {
      RunKeeps(st, ops[..|ops| - 1]);
      StepKeeps(After(st, ops[..|ops| - 1]), ops[|ops| - 1]);
    }
  }

  /** Conservation and single departure: after any run every admitted group is in exactly one
      of waiting, released, cancelled and cleared, exactly once, and whatever was released
      was wholly ready. */
  lemma Conservation<I, M>(strict: bool, ops: seq<Op<I, M>>)
    ensures var st := After(Init<I, M>(strict), ops);
      && WellFormed(st)
      && (forall s: nat :: Places(st, s) == if s < |st.all| then 1 else 0)
      && (forall s | s in st.released :: s < |st.all| && st.all[s].Ready())
  {
    RunKeeps(Init<I, M>(strict), ops);
  }

  // ---------- groups stay whole and never come back ----------

  ghost predicate Evolves<I, M>(st: State<I, M>, st': State<I, M>) {
    && st'.strict == st.strict
    && |st.all| <= |st'.all|
    && (forall s: nat | s < |st.all| ::
         && st'.all[s].id == st.all[s].id
         && st'.all[s].members == st.all[s].members
         && st.all[s].marked <= st'.all[s].marked)
    && st.released <= st'.released && st.cancelled <= st'.cancelled && st.cleared <= st'.cleared
    && (forall s | s in st'.waiting :: s in st.waiting || s >= |st.all|)
  }

  lemma DepartEvolves<I, M>(st: State<I, M>, gone: seq<nat>, how: How)
    ensures Evolves(st, st.Depart(gone, how))
  {
    hide Drop;
  }

  lemma MoreMarksEvolve<I, M>(st: State<I, M>, s: nat, marked: set<M>)
    requires s < |st.all| && st.all[s].marked <= marked
    ensures Evolves(st, st.(all := st.all[s := st.all[s].(marked := marked)]))
  {
  }

  lemma StepEvolves<I, M>(st: State<I, M>, op: Op<I, M>)
    requires WellFormed(st)
    ensures Evolves(st, Step(st, op).0)
  {
    hide Disjoint, Conserved, InLine, Drop, First, Prefix, Keep;
    match op
    case Admit(_, _) =>
    case MarkReady(m) =>
      if st.Holder(m).Some? { HeldEvolves(st, st.Holder(m).value, m); }
    case MarkGroup(id) =>
      if st.Find(id).Some? && st.Find(id).value < |st.all| {
        var p := st.all[st.Find(id).value];
        assert p.Valid();
        MoreMarksEvolve(st, st.Find(id).value, Elements(p.members));
      }
    case MarkHeld(s, m) => HeldEvolves(st, s, m);
    case GroupOf(_) =>
    case Cancel(id) =>
      if st.Find(id).Some? { DepartEvolves(st, [st.Find(id).value], Withdrawn); }
    case Clear => DepartEvolves(st, st.waiting, Flushed);
    case Peek =>
    case Release =>
      if st.Next().Some? { DepartEvolves(st, [st.Next().value], Left); }
    case ReleaseAll => DepartEvolves(st, st.Departing(), Left);
  }

  lemma HeldEvolves<I, M>(st: State<I, M>, s: nat, m: M)
    ensures Evolves(st, HeldStep(st, s, m).0)
  {
    if st.Holds(s, m) { MoreMarksEvolve(st, s, st.all[s].marked + {m}); }
  }

  /** Over any further run a group keeps its id and members, marks are never taken back, the
      departure records only grow, and a group that has left is never in the line again. */
  lemma {:induction false} RunEvolves<I, M>(st: State<I, M>, ops: seq<Op<I, M>>)
    requires WellFormed(st)
    ensures Evolves(st, After(st, ops))
  {
    if ops != [] {
      var front := ops[..|ops| - 1];
      RunEvolves(st, front);
      RunKeeps(st, front);
      StepEvolves(After(st, front), ops[|ops| - 1]);
    }
  }

  lemma {:induction false} AfterMore<I, M>(st: State<I, M>, ops: seq<Op<I, M>>, more: seq<Op<I, M>>)
    ensures After(st, ops + more) == After(After(st, ops), more)
  {
    if more == [] {
      assert ops + more == ops;
    } else {
      var front := more[..|more| - 1];
      AfterMore(st, ops, front);
      assert (ops + more)[..|ops + more| - 1] == ops + front;
    }
  }

  // ---------- readiness is a matter of which members were marked ----------

  /** This call marks member `m` of group `s`. */
  ghost predicate Marks<I, M>(st: State<I, M>, op: Op<I, M>, s: nat, m: M) {
    && st.Holds(s, m)
    && (|| (op == MarkReady(m) && st.Holder(m) == Some(s))
        || (op.MarkGroup? && st.Find(op.id) == Some(s))
        || op == MarkHeld(s, m))
  }

  lemma StepMarks<I, M>(st: State<I, M>, op: Op<I, M>, s: nat, m: M)
    requires WellFormed(st)
    ensures var st' := Step(st, op).0;
      && (s < |st.all| ==> (m in st'.all[s].marked <==> m in st.all[s].marked || Marks(st, op, s, m)))
      && (|st.all| <= s < |st'.all| ==> st'.all[s].marked == {})
  {
    hide Disjoint, Conserved, InLine, First, Prefix, Keep, Drop;
    if s < |st.all| {
      assert st.all[s].Valid();
      assert st.all[s].MarkWhole().marked == Elements(st.all[s].members);
      if op.MarkReady? && st.Holder(op.member).Some? {
        assert st.Holder(op.member).value in st.WithMember(op.member);
      }
    }
  }

  /** Some call of the run marks member `m` of group `s`. */
  ghost predicate MarkedBy<I, M>(st: State<I, M>, ops: seq<Op<I, M>>, s: nat, m: M) {
    exists i :: 0 <= i < |ops| && Marks(After(st, ops[..i]), ops[i], s, m)
  }

  lemma MarkedLater<I, M>(st: State<I, M>, ops: seq<Op<I, M>>, s: nat, m: M)
    requires ops != []
    ensures var n := |ops| - 1;
      MarkedBy(st, ops, s, m) <==> MarkedBy(st, ops[..n], s, m) || Marks(After(st, ops[..n]), ops[n], s, m)
  {
    hide Marks, After;
    var n := |ops| - 1;
    var front := ops[..n];
    assert forall i | 0 <= i < n :: ops[..i] == front[..i] && ops[i] == front[i];
    if MarkedBy(st, front, s, m) {
      var i :| 0 <= i < n && Marks(After(st, front[..i]), front[i], s, m);
      assert Marks(After(st, ops[..i]), ops[i], s, m);
    }
    if MarkedBy(st, ops, s, m) {
      var i :| 0 <= i < |ops| && Marks(After(st, ops[..i]), ops[i], s, m);
      assert i < n ==> Marks(After(st, front[..i]), front[i], s, m);
    }
  }

  lemma {:induction false} MarkedByCalls<I, M>(strict: bool, ops: seq<Op<I, M>>, s: nat, m: M)
    ensures var st := After(Init<I, M>(strict), ops);
      s < |st.all| ==> (m in st.all[s].marked <==> MarkedBy(Init<I, M>(strict), ops, s, m))
    ensures s >= |After(Init<I, M>(strict), ops).all| ==> !MarkedBy(Init<I, M>(strict), ops, s, m)
  {
    hide Step, Marks, MarkedBy, WellFormed;
    var init := Init<I, M>(strict);
    if ops == [] {
      NothingMarked<I, M>(strict, s, m);
    } else {
      var n := |ops| - 1;
      var front := ops[..n];
      MarkedByCalls(strict, front, s, m);
      MarkedLater(init, ops, s, m);
      RunKeeps(init, front);
      StepEvolves(After(init, front), ops[n]);
      StepMarks(After(init, front), ops[n], s, m);
      OnlyKnownGroups(After(init, front), ops[n], s, m);
    }
  }

  lemma NothingMarked<I, M>(strict: bool, s: nat, m: M)
    ensures !MarkedBy(Init<I, M>(strict), [], s, m)
  {
  }

  lemma OnlyKnownGroups<I, M>(st: State<I, M>, op: Op<I, M>, s: nat, m: M)
    ensures Marks(st, op, s, m) ==> s < |st.all|
  {
  }

  /** Marks may come in any order, repeatedly, through the queue or on the group itself, while
      it waits or after it has left: a group is ready exactly when every one of its members
      has been marked by some call, and its counter is then its size. */
  lemma ReadyWhenAllMarked<I, M>(strict: bool, ops: seq<Op<I, M>>, s: nat)
    requires s < |After(Init<I, M>(strict), ops).all|
    ensures var p := After(Init<I, M>(strict), ops).all[s];
      && (p.Ready() <==> forall m | m in p.members :: MarkedBy(Init<I, M>(strict), ops, s, m))
      && (p.Ready() <==> |p.marked| == |p.members|)
  {
    hide MarkedBy, Step;
    var p := After(Init<I, M>(strict), ops).all[s];
    RunKeeps(Init<I, M>(strict), ops);
    assert p.Valid();
    FullCount(p.members, p.marked);
    forall m | m in p.members ensures m in p.marked <==> MarkedBy(Init<I, M>(strict), ops, s, m) {
      MarkedByCalls(strict, ops, s, m);
    }
    assert forall m :: m in p.members <==> m in Elements(p.members);
  }

  // ---------- no group is handed out twice ----------

  /** The groups a call takes out of the queue and gives to its caller. */
  ghost function Handed<I, M>(op: Op<I, M>, out: Outcome): seq<nat> {
    if op.ReleaseAll? || op.Clear? then (if out.Many? then out.groups else [])
    else if op.Release? || op.Cancel? then (if out.Maybe? && out.found.Some? then [out.found.value] else [])
    else []
  }

  lemma HandedLeave<I, M>(st: State<I, M>, op: Op<I, M>)
    requires WellFormed(st)
    ensures Distinct(Handed(op, Step(st, op).1))
    ensures forall s | s in Handed(op, Step(st, op).1) ::
      s in st.waiting && s < |st.all| && s !in Step(st, op).0.waiting
  {
    match op
    case Release =>
      if st.Next().Some? { NextDeparts(st, st.Next().value); }
    case ReleaseAll => DepartingDeparts(st);
    case _ =>
  }

  lemma {:induction false} OutcomeAt<I, M>(st: State<I, M>, ops: seq<Op<I, M>>, i: nat)
    requires i < |ops|
    ensures |Outcomes(st, ops)| == |ops|
    ensures Outcomes(st, ops)[i] == Step(After(st, ops[..i]), ops[i]).1
  {
    var front := ops[..|ops| - 1];
    if i < |front| {
      OutcomeAt(st, front, i);
      assert front[..i] == ops[..i];
    } else {
      if front != [] { OutcomeAt(st, front, 0); }
      assert front == ops[..i];
    }
  }

  /** Single departure, as callers see it: over any run, no two calls are given the same group. */
  lemma NeverHandedTwice<I, M>(strict: bool, ops: seq<Op<I, M>>, i: nat, j: nat, s: nat)
    requires i < j < |ops|
    ensures var outs := Outcomes(Init<I, M>(strict), ops);
      |outs| == |ops| && (s in Handed(ops[i], outs[i]) ==> s !in Handed(ops[j], outs[j]))
  {
    hide Step, WellFormed, Outcomes, Handed;
    var init := Init<I, M>(strict);
    OutcomeAt(init, ops, i);
    OutcomeAt(init, ops, j);
    var before, after, later := After(init, ops[..i]), After(init, ops[..i + 1]), After(init, ops[..j]);
    assert ops[..i + 1][..i] == ops[..i];
    assert ops[..j] == ops[..i + 1] + ops[i + 1..j];
    RunKeeps(init, ops[..i]);
    RunKeeps(init, ops[..i + 1]);
    RunKeeps(init, ops[..j]);
    HandedLeave(before, ops[i]);
    HandedLeave(later, ops[j]);
    StepEvolves(before, ops[i]);
    AfterMore(init, ops[..i + 1], ops[i + 1..j]);
    RunEvolves(after, ops[i + 1..j]);
  }

  // ---------- departure order ----------

  /** What may leave, and when: under strict order only the oldest waiting group, so nothing
      older is ever left behind; under relaxed order only groups that are not ready are
      overtaken, and some group leaves whenever some waiting group is ready. */
  lemma DepartureOrder<I, M>(strict: bool, ops: seq<Op<I, M>>)
    ensures var st := After(Init<I, M>(strict), ops);
      && (strict ==> Increasing(st.released))
      && (strict ==> (st.Next().Some? <==> st.waiting != [] && st.waiting[0] in st.ReadySet()))
      && (!strict ==> (st.Next().Some? <==> exists i :: 0 <= i < |st.waiting| && st.waiting[i] in st.ReadySet()))
      && (st.Next().Some? ==>
            var s := st.Next().value;
            && s in st.waiting && s in st.ReadySet()
            && (forall t | t in st.waiting && t < s :: !strict && t !in st.ReadySet()))
  {
    var st := After(Init<I, M>(strict), ops);
    RunKeeps(Init<I, M>(strict), ops);
    RunEvolves(Init<I, M>(strict), ops);
    assert st.waiting != [] ==> st.waiting[0] in st.waiting;
  }

  /** A group that is not ready leaves in exactly two ways: it is cancelled by its id, or the
      whole line is cleared. */
  lemma UnreadyLeaves<I, M>(st: State<I, M>, op: Op<I, M>, s: nat)
    requires WellFormed(st) && s in st.waiting && s !in st.ReadySet()
    ensures s !in Step(st, op).0.waiting <==> op.Clear? || (op.Cancel? && op.id == st.all[s].id)
  {
    hide Disjoint, Conserved, InLine, Drop, Prefix, Keep, First;
    FindIs(st, s);
    match op
    case Cancel(id) =>
      if st.Find(id).Some? { assert st.Find(id).value in st.WithId(id); }
    case Release =>
      if st.Next().Some? { NextDeparts(st, st.Next().value); }
    case ReleaseAll => DepartingDeparts(st);
    case _ =>
  }

  // ---------- release_all ----------

  lemma {:induction false} DropDrop(xs: seq<nat>, a: set<nat>, b: set<nat>)
    ensures Drop(Drop(xs, a), b) == Drop(xs, a + b)
  {
    if xs != [] {
      DropDrop(xs[1..], a, b);
      var rest := Drop(xs[1..], a);
      if xs[0] in a {
        assert Drop(xs, a) == rest && Drop(xs, a + b) == Drop(xs[1..], a + b);
      } else {
        assert ([xs[0]] + rest)[1..] == rest;
      }
    }
  }

  lemma PrependIncreasing(x: nat, xs: seq<nat>)
    requires Increasing(xs) && forall y | y in xs :: x < y
    ensures Increasing([x] + xs)
  {
    assert forall i | 0 <= i < |xs| :: xs[i] in xs;
  }

  lemma KeepHead(w: seq<nat>, ready: set<nat>, s: nat)
    requires Increasing(w) && First(w, ready) == Some(s)
    ensures Keep(w, ready) == [s] + Keep(Drop(w, {s}), ready)
  {
    hide Keep, Drop, First, Increasing;
    var rest := Keep(Drop(w, {s}), ready);
    KeepIncreasing(w, ready);
    DropIncreasing(w, {s});
    KeepIncreasing(Drop(w, {s}), ready);
    assert forall t | t in rest :: s <= t && t != s;
    PrependIncreasing(s, rest);
    IncreasingUnique(Keep(w, ready), [s] + rest);
  }

  lemma DrainTail<I, M>(st: State<I, M>, s: nat)
    requires Increasing(st.waiting) && st.Next() == Some(s)
    ensures st.Departing() == [s] + st.Depart([s], Left).Departing()
  {
    var w, st' := st.waiting, st.Depart([s], Left);
    assert Elements([s]) == {s} && st'.ReadySet() == st.ReadySet();
    if st.strict {
      DropAt(w, 0);
      assert st'.waiting == w[1..];
    } else {
      KeepHead(w, st.ReadySet(), s);
    }
  }

  lemma DepartTwice<I, M>(st: State<I, M>, a: seq<nat>, b: seq<nat>)
    ensures st.Depart(a + b, Left) == st.Depart(a, Left).Depart(b, Left)
  {
    DropDrop(st.waiting, Elements(a), Elements(b));
    assert Elements(a) + Elements(b) == Elements(a + b);
    assert st.released + (a + b) == st.released + a + b;
  }

  lemma DepartNobody<I, M>(st: State<I, M>, how: How)
    ensures st.Depart([], how) == st
  {
    var nobody: seq<nat> := [];
    DropNothing(st.waiting, Elements(nobody));
    assert Drop(st.waiting, Elements(nobody)) == st.waiting;
    assert st.released + nobody == st.released;
    assert st.cancelled + nobody == st.cancelled;
    assert st.cleared + nobody == st.cleared;
  }

  /** Releasing one group and then all that can leave is releasing all that can leave. */
  lemma DrainStep<I, M>(st: State<I, M>)
    requires WellFormed(st)
    ensures st.Next().None? <==> st.Departing() == []
    ensures st.Next().Some? ==>
      var st' := st.Depart([st.Next().value], Left);
      && st.Departing() == [st.Next().value] + st'.Departing()
      && st.Depart(st.Departing(), Left) == st'.Depart(st'.Departing(), Left)
  {
    if st.Next().None? {
      assert forall i | 0 <= i < |st.Departing()| :: st.Departing()[i] in st.Departing();
    } else {
      var s := st.Next().value;
      DrainTail(st, s);
      DepartTwice(st, [s], st.Depart([s], Left).Departing());
    }
  }

  lemma ReleaseShrinks<I, M>(st: State<I, M>, s: nat)
    requires WellFormed(st) && s in st.waiting
    ensures |st.Depart([s], Left).waiting| == |st.waiting| - 1
  {
    DropSplits(st.waiting, [s]);
    assert |multiset(st.waiting)| == |st.waiting|;
  }

  /** One turn of a release_all loop. */
  lemma DrainTurn<I, M>(st: State<I, M>)
    requires WellFormed(st)
    ensures st.Next().None? ==> st.Departing() == [] && st.Depart(st.Departing(), Left) == st
    ensures st.Next().Some? ==>
      var st' := st.Depart([st.Next().value], Left);
      && |st'.waiting| == |st.waiting| - 1
      && st.Departing() == [st.Next().value] + st'.Departing()
      && st.Depart(st.Departing(), Left) == st'.Depart(st'.Departing(), Left)
  {
    hide WellFormed, First, Prefix, Keep, Drop;
    DrainStep(st);
    if st.Next().None? {
      DepartNobody(st, Left);
    } else {
      NextDeparts(st, st.Next().value);
      ReleaseShrinks(st, st.Next().value);
    }
  }

  /** The same, when `gone` have left already. */
  lemma DrainOn<I, M>(st: State<I, M>, gone: seq<nat>, now: State<I, M>)
    requires WellFormed(now) && now == st.Depart(gone, Left)
    requires st.Departing() == gone + now.Departing()
    ensures now.Next().None? ==> st.Departing() == gone
    ensures now.Next().Some? ==>
      var (gone', now') := (gone + [now.Next().value], now.Depart([now.Next().value], Left));
      && st.Departing() == gone' + now'.Departing() && now' == st.Depart(gone', Left)
      && |now'.waiting| == |now.waiting| - 1
  {
    hide WellFormed, First, Prefix, Keep, Drop, State.Departing;
    DrainTurn(now);
    if now.Next().Some? {
      var s := now.Next().value;
      DepartTwice(st, gone, [s]);
      var rest := now.Depart([s], Left).Departing();
      assert gone + ([s] + rest) == gone + [s] + rest;
    }
  }

  /** Exactly which groups leave, in which order, and which stay, in which order. */
  lemma ReleaseAllExact<I, M>(st: State<I, M>)
    requires WellFormed(st)
    ensures var (st', out) := Step(st, ReleaseAll);
      && out == Many(st.Departing())
      && multiset(st.waiting) == multiset(st'.waiting) + multiset(out.groups)
      && st'.released == st.released + out.groups
      && st'.Next().None?
      && (st.strict ==>
            && st.waiting == out.groups + st'.waiting
            && (forall s | s in out.groups :: s in st.ReadySet())
            && (st'.waiting != [] ==> st'.waiting[0] !in st.ReadySet()))
      && (!st.strict ==>
            && Increasing(out.groups) && Increasing(st'.waiting)
            && (forall s :: s in out.groups <==> s in st.waiting && s in st.ReadySet())
            && (forall s :: s in st'.waiting <==> s in st.waiting && s !in st.ReadySet()))
  {
    hide WellFormed, Increasing, Prefix, Keep, Drop;
    var gone := st.Departing();
    var st' := st.Depart(gone, Left);
    LineOf(st);
    DropSplits(st.waiting, gone);
    DropIncreasing(st.waiting, Elements(gone));
    if st.strict {
      PrefixDrops(st.waiting, gone);
      assert st'.waiting != [] ==> st'.waiting[0] == st.waiting[|gone|];
    }
    assert st'.ReadySet() == st.ReadySet();
  }

  lemma LineOf<I, M>(st: State<I, M>)
    requires WellFormed(st)
    ensures Increasing(st.waiting) && Increasing(st.Departing()) && Distinct(st.Departing())
    ensures forall s | s in st.Departing() :: s in st.waiting && s in st.ReadySet()
  {
    hide Drop, Disjoint, Conserved, InLine;
    DepartingDeparts(st);
  }

  lemma {:induction false} PrefixDrops(xs: seq<nat>, gone: seq<nat>)
    requires Increasing(xs) && gone <= xs
    ensures xs == gone + Drop(xs, Elements(gone))
  {
    hide Drop;
    var rest := xs[|gone|..];
    DropIncreasing(xs, Elements(gone));
    assert xs == gone + rest;
    assert forall i | 0 <= i < |gone| :: gone[i] == xs[i];
    assert forall j | 0 <= j < |rest| :: rest[j] == xs[|gone| + j];
    IncreasingUnique(rest, Drop(xs, Elements(gone)));
  }

  // ---------- cancelling ----------

  /** Withdrawing one group never disturbs the others: under relaxed order exactly that group
      disappears from what can leave; under strict order what could leave still can, and more
      can leave exactly when the group was the one blocking a ready group behind it. */
  lemma CancelOnlyUnblocks<I, M>(st: State<I, M>, g: nat)
    requires WellFormed(st) && g in st.waiting
    ensures var st' := Step(st, Cancel(st.all[g].id)).0;
      var kept := Drop(st.Departing(), {g});
      var k := |st.Departing()|;
      && st' == st.Depart([g], Withdrawn)
      && (!st.strict ==> st'.Departing() == kept)
      && (st.strict ==> kept <= st'.Departing())
      && (st.strict ==> (kept != st'.Departing() <==>
            k + 1 < |st.waiting| && g == st.waiting[k] && st.waiting[k + 1] in st.ReadySet()))
  {
    hide WellFormed, Drop, Keep, Prefix, First;
    CancelIs(st, g);
    var st' := st.Depart([g], Withdrawn);
    if st.strict {
      PrefixWithout(st.waiting, st.ReadySet(), PlaceInLine(st.waiting, g));
    } else {
      KeepWithout(st.waiting, st.ReadySet(), g);
    }
  }

  lemma CancelIs<I, M>(st: State<I, M>, g: nat)
    requires WellFormed(st) && g in st.waiting
    ensures g < |st.all| && Increasing(st.waiting)
    ensures var st' := st.Depart([g], Withdrawn);
      && Step(st, Cancel(st.all[g].id)).0 == st'
      && st'.waiting == Drop(st.waiting, {g}) && st'.ReadySet() == st.ReadySet()
  {
    hide Drop, First;
    FindIs(st, g);
    assert Elements([g]) == {g};
  }

  ghost function PlaceInLine(xs: seq<nat>, x: nat): (i: nat)
    requires x in xs
    ensures i < |xs| && xs[i] == x
  {
    if xs[0] == x then 0 else 1 + PlaceInLine(xs[1..], x)
  }

  lemma KeepWithout(w: seq<nat>, ready: set<nat>, g: nat)
    requires Increasing(w)
    ensures Keep(Drop(w, {g}), ready) == Drop(Keep(w, ready), {g})
  {
    DropIncreasing(w, {g});
    KeepIncreasing(Drop(w, {g}), ready);
    KeepIncreasing(w, ready);
    DropIncreasing(Keep(w, ready), {g});
    IncreasingUnique(Keep(Drop(w, {g}), ready), Drop(Keep(w, ready), {g}));
  }

  lemma PrefixIs(xs: seq<nat>, s: set<nat>, k: nat)
    requires k <= |xs| && (forall j | 0 <= j < k :: xs[j] in s)
    ensures k <= |Prefix(xs, s)|
    ensures k < |xs| && xs[k] !in s ==> Prefix(xs, s) == xs[..k]
    ensures k < |xs| && xs[k] in s ==> Prefix(xs, s) != xs[..k]
    ensures k == |xs| ==> Prefix(xs, s) == xs
  {
    hide Prefix;
    var r := Prefix(xs, s);
    assert k < |r| ==> r[k] == xs[k] && r[k] in r;
  }

  lemma DropOneAt(w: seq<nat>, k: nat, i: nat)
    requires Distinct(w) && i < |w| && k <= |w|
    ensures Drop(w[..k], {w[i]}) == if i < k then w[..i] + w[i + 1..k] else w[..k]
  {
    hide Drop;
    if i < k {
      DropAt(w[..k], i);
      assert w[..k][..i] == w[..i] && w[..k][i + 1..] == w[i + 1..k];
    } else {
      DropNothing(w[..k], {w[i]});
    }
  }

  lemma PrefixWithout(w: seq<nat>, ready: set<nat>, i: nat)
    requires Distinct(w) && i < |w|
    ensures var kept := Drop(Prefix(w, ready), {w[i]});
      var now := Prefix(Drop(w, {w[i]}), ready);
      var k := |Prefix(w, ready)|;
      && kept <= now
      && (kept != now <==> i == k && k + 1 < |w| && w[k + 1] in ready)
  {
    hide Prefix, Drop, Distinct;
    var lead := Prefix(w, ready);
    var k := |lead|;
    DropAt(w, i);
    DropOneAt(w, k, i);
    assert lead == w[..k] && forall j | 0 <= j < k :: w[j] in lead;
    if i < k {
      WithoutInside(w, ready, i, k);
    } else {
      WithoutBeyond(w, ready, i, k);
    }
  }

  lemma WithoutInside(w: seq<nat>, ready: set<nat>, i: nat, k: nat)
    requires i < k <= |w| && (forall j | 0 <= j < k :: w[j] in ready) && (k < |w| ==> w[k] !in ready)
    ensures Prefix(w[..i] + w[i + 1..], ready) == w[..i] + w[i + 1..k]
  {
    hide Prefix;
    var rest := w[..i] + w[i + 1..];
    assert rest[..k - 1] == w[..i] + w[i + 1..k];
    assert forall j | 0 <= j < k - 1 :: rest[j] == w[if j < i then j else j + 1];
    assert k - 1 < |rest| ==> rest[k - 1] == w[k];
    PrefixIs(rest, ready, k - 1);
  }

  lemma WithoutBeyond(w: seq<nat>, ready: set<nat>, i: nat, k: nat)
    requires k <= i < |w| && (forall j | 0 <= j < k :: w[j] in ready) && w[k] !in ready
    ensures w[..k] <= Prefix(w[..i] + w[i + 1..], ready)
    ensures w[..k] != Prefix(w[..i] + w[i + 1..], ready) <==> i == k && k + 1 < |w| && w[k + 1] in ready
  {
    hide Prefix;
    var rest := w[..i] + w[i + 1..];
    assert rest[..k] == w[..k];
    assert forall j | 0 <= j < k :: rest[j] == w[j];
    assert k < |rest| ==> rest[k] == if k < i then w[k] else w[k + 1];
    PrefixIs(rest, ready, k);
  }

  // ---------- where the two implementations agree ----------

  lemma StepsAgree<I, M>(st: State<I, M>, op: Op<I, M>)
    ensures ScanStep(st, op).1 == Step(st, op).1 <==> !Diverges(st, op)
    ensures !Diverges(st, op) ==> ScanStep(st, op) == Step(st, op)
  {
    if op.MarkReady? && st.Holder(op.member).Some? {
      assert st.Holds(st.Holder(op.member).value, op.member);
    }
  }

  lemma DivergesLater<I, M>(st: State<I, M>, ops: seq<Op<I, M>>)
    requires ops != []
    ensures var n := |ops| - 1;
      RunDiverges(st, ops) <==> RunDiverges(st, ops[..n]) || Diverges(After(st, ops[..n]), ops[n])
  {
    hide Diverges, After;
    var n := |ops| - 1;
    var front := ops[..n];
    assert forall i | 0 <= i < n :: ops[..i] == front[..i] && ops[i] == front[i];
    if RunDiverges(st, front) {
      var i :| 0 <= i < n && Diverges(After(st, front[..i]), front[i]);
      assert Diverges(After(st, ops[..i]), ops[i]);
    }
    if RunDiverges(st, ops) {
      var i :| 0 <= i < |ops| && Diverges(After(st, ops[..i]), ops[i]);
      assert i < n ==> Diverges(After(st, front[..i]), front[i]);
    }
  }

  /** A caller sees the same answers from both queues through a whole run exactly when the run
      never admits a bare string and never looks up a member of a group admitted as None. */
  lemma {:induction false} RunsAgree<I, M>(st: State<I, M>, ops: seq<Op<I, M>>)
    ensures ScanOutcomes(st, ops) == Outcomes(st, ops) <==> !RunDiverges(st, ops)
    ensures !RunDiverges(st, ops) ==> ScanAfter(st, ops) == After(st, ops)
    ensures |ScanOutcomes(st, ops)| == |Outcomes(st, ops)| == |ops|
  {
    hide RunDiverges, Diverges, Step, ScanStep;
    if ops == [] {
      NoneDiverges(st, ops);
    } else {
      var n := |ops| - 1;
      RunsAgree(st, ops[..n]);
      StepsAgree(After(st, ops[..n]), ops[n]);
      DivergesLater(st, ops);
      assert Outcomes(st, ops)[..n] == Outcomes(st, ops[..n]);
      assert ScanOutcomes(st, ops)[..n] == ScanOutcomes(st, ops[..n]);
    }
  }

  lemma NoneDiverges<I, M>(st: State<I, M>, ops: seq<Op<I, M>>)
    requires ops == []
    ensures !RunDiverges(st, ops)
  {
  }
}
