/** A second definition of the discipline, by what a caller can check.

`Discipline.Step` computes: it looks groups up and hands out the first that fits. `Right` only
says what must hold of the line before a call, the line after it and the answer, by quantifiers
over the waiting groups. The two pin each other: what `Step` does is right, and nothing else is. */
module Answers {
  import opened Lists
  import opened Discipline
  import opened Guarantees

  // ---------- what can be said of a line without looking anything up ----------

  ghost predicate HasId<I, M>(st: State<I, M>, s: nat, id: Option<I>) {
    s < |st.all| && st.all[s].id == id
  }

  ghost predicate HasMember<I, M>(st: State<I, M>, s: nat, m: M) {
    s < |st.all| && exists i :: 0 <= i < |st.all[s].members| && st.all[s].members[i] == m
  }

  ghost predicate Complete<I, M>(st: State<I, M>, s: nat) {
    s < |st.all| && forall i :: 0 <= i < |st.all[s].members| ==> st.all[s].members[i] in st.all[s].marked
  }

  ghost predicate IdWaits<I, M>(st: State<I, M>, id: Option<I>) {
    exists s :: s in st.waiting && HasId(st, s, id)
  }

  ghost predicate MemberWaits<I, M>(st: State<I, M>, m: M) {
    exists s :: s in st.waiting && HasMember(st, s, m)
  }

  /** The group that may leave next: strictly the oldest, or else the oldest that is complete. */
  ghost predicate MayLeave<I, M>(st: State<I, M>, s: nat) {
    && s in st.waiting && Complete(st, s)
    && forall t :: t in st.waiting && t < s ==> !st.strict && !Complete(st, t)
  }

  /** Everything about the two is the same, except what `but` lets change. */
  ghost predicate SameRecords<I, M>(st: State<I, M>, st': State<I, M>) {
    st'.released == st.released && st'.cancelled == st.cancelled && st'.cleared == st.cleared
  }

  /** Only the marks of group `s` change, and become `marked`. */
  ghost predicate OnlyMarks<I, M>(st: State<I, M>, st': State<I, M>, s: nat, marked: set<M>) {
    && st'.strict == st.strict && st'.waiting == st.waiting && SameRecords(st, st')
    && |st'.all| == |st.all| && s < |st.all|
    && st'.all[s].id == st.all[s].id && st'.all[s].members == st.all[s].members && st'.all[s].marked == marked
    && forall t: nat :: t < |st.all| && t != s ==> st'.all[t] == st.all[t]
  }

  /** The line loses exactly the groups of `gone`, and the others keep their order. */
  ghost predicate Loses<I, M>(st: State<I, M>, st': State<I, M>, gone: seq<nat>) {
    && st'.strict == st.strict && st'.all == st.all
    && Increasing(st'.waiting)
    && (forall s :: s in st'.waiting <==> s in st.waiting && s !in gone)
  }

  /** Group `s` takes one more mark, and the answer tells whether that completes it. */
  ghost predicate RightMark<I, M>(st: State<I, M>, s: nat, m: M, st': State<I, M>, out: Outcome) {
    && s < |st.all| && OnlyMarks(st, st', s, st.all[s].marked + {m})
    && out == Flag(Complete(st', s))
  }

  // ---------- the right answer to each call ----------

  ghost predicate RightAdmit<I, M>(st: State<I, M>, id: Option<I>, members: Batch<M>, st': State<I, M>, out: Outcome) {
    var items := members.items;
    if members.Text? || items == [] || !Distinct(items) || IdWaits(st, id)
       || (exists i :: 0 <= i < |items| && MemberWaits(st, items[i]))
    then st' == st && out == Rejected
    else
      && out == Maybe(Some(|st.all|))
      && st'.strict == st.strict && SameRecords(st, st')
      && st'.waiting == st.waiting + [|st.all|]
      && |st'.all| == |st.all| + 1
      && (forall t: nat :: t < |st.all| ==> st'.all[t] == st.all[t])
      && st'.all[|st.all|] == Party(id, items, {})
  }

  ghost predicate RightRelease<I, M>(st: State<I, M>, st': State<I, M>, out: Outcome) {
    if forall s :: s in st.waiting ==> !MayLeave(st, s)
    then st' == st && out == Maybe(None)
    else exists s :: MayLeave(st, s) && out == Maybe(Some(s)) && Loses(st, st', [s])
           && st'.released == st.released + [s] && st'.cancelled == st.cancelled && st'.cleared == st.cleared
  }

  ghost predicate RightCancel<I, M>(st: State<I, M>, id: Option<I>, st': State<I, M>, out: Outcome) {
    if !IdWaits(st, id)
    then st' == st && out == Rejected
    else exists s :: s in st.waiting && HasId(st, s, id) && out == Maybe(Some(s)) && Loses(st, st', [s])
           && st'.released == st.released && st'.cancelled == st.cancelled + [s] && st'.cleared == st.cleared
  }

  /** Strictly the longest complete start of the line; else all that is complete, in order. */
  ghost predicate AllThatMay<I, M>(st: State<I, M>, gone: seq<nat>) {
    if st.strict then
      && |gone| <= |st.waiting|
      && (forall i :: 0 <= i < |gone| ==> gone[i] == st.waiting[i] && Complete(st, gone[i]))
      && (|gone| < |st.waiting| ==> !Complete(st, st.waiting[|gone|]))
    else Increasing(gone) && forall s :: s in gone <==> s in st.waiting && Complete(st, s)
  }

  ghost predicate Right<I, M>(st: State<I, M>, op: Op<I, M>, st': State<I, M>, out: Outcome) {
    match op
    case Admit(id, members) => RightAdmit(st, id, members, st', out)
    case MarkReady(m) =>
      if !MemberWaits(st, m) then st' == st && out == Rejected
      else exists s :: s in st.waiting && HasMember(st, s, m) && RightMark(st, s, m, st', out)
    case MarkGroup(id) =>
      if !IdWaits(st, id) then st' == st && out == Rejected
      else exists s :: s in st.waiting && HasId(st, s, id) && out == Flag(true)
             && OnlyMarks(st, st', s, Elements(st.all[s].members))
    case MarkHeld(s, m) =>
      if !HasMember(st, s, m) then st' == st && out == Rejected else RightMark(st, s, m, st', out)
    case GroupOf(m) =>
      && st' == st
      && (if !MemberWaits(st, m) then out == Maybe(None)
          else exists s :: s in st.waiting && HasMember(st, s, m) && out == Maybe(Some(s)))
    case Cancel(id) => RightCancel(st, id, st', out)
    case Clear =>
      && out == Many(st.waiting) && st'.strict == st.strict && st'.all == st.all && st'.waiting == []
      && st'.released == st.released && st'.cancelled == st.cancelled && st'.cleared == st.cleared + st.waiting
    case Peek =>
      && st' == st
      && (if forall s :: s in st.waiting ==> !MayLeave(st, s) then out == Maybe(None)
          else exists s :: MayLeave(st, s) && out == Maybe(Some(s)))
    case Release => RightRelease(st, st', out)
    case ReleaseAll =>
      && out.Many? && AllThatMay(st, out.groups) && Loses(st, st', out.groups)
      && st'.released == st.released + out.groups && st'.cancelled == st.cancelled && st'.cleared == st.cleared
  }

  // ---------- the two vocabularies ----------

  lemma Plainly<I, M>(st: State<I, M>)
    ensures forall s: nat, m :: HasMember(st, s, m) <==> s < |st.all| && m in st.all[s].members
    ensures forall s: nat :: Complete(st, s) <==> s in st.ReadySet()
  {
    forall s: nat | s < |st.all| ensures Complete(st, s) <==> st.all[s].Ready() {
      assert forall m :: m in Elements(st.all[s].members) <==> m in st.all[s].members;
    }
  }

  lemma FindTells<I, M>(st: State<I, M>, id: Option<I>)
    requires WellFormed(st)
    ensures st.Find(id).Some? <==> IdWaits(st, id)
    ensures st.Find(id).Some? ==> st.Find(id).value in st.waiting && HasId(st, st.Find(id).value, id)
  {
    hide Disjoint, Conserved, InLine;
    if st.Find(id).Some? { assert st.Find(id).value in st.WithId(id); }
    if s :| s in st.waiting && HasId(st, s, id) { assert s in st.WithId(id); }
  }

  lemma HolderTells<I, M>(st: State<I, M>, m: M)
    requires WellFormed(st)
    ensures st.Holder(m).Some? <==> MemberWaits(st, m)
    ensures st.Holder(m).Some? ==> st.Holder(m).value in st.waiting && HasMember(st, st.Holder(m).value, m)
  {
    hide Disjoint, Conserved, InLine;
    Plainly(st);
    if st.Holder(m).Some? { assert st.Holder(m).value in st.WithMember(m); }
    if s :| s in st.waiting && HasMember(st, s, m) { assert s in st.WithMember(m); }
  }

  lemma NextTells<I, M>(st: State<I, M>)
    requires WellFormed(st)
    ensures st.Next().Some? ==> st.Next().value in st.waiting && MayLeave(st, st.Next().value)
    ensures st.Next().None? ==> forall s :: s in st.waiting ==> !MayLeave(st, s)
  {
    hide Disjoint, Conserved, InLine;
    Plainly(st);
    assert st.waiting != [] ==> st.waiting[0] in st.waiting;
    assert forall i | 0 < i < |st.waiting| :: st.waiting[0] < st.waiting[i];
  }

  // ---------- what Step does is right ----------

  lemma DepartLoses<I, M>(st: State<I, M>, gone: seq<nat>, how: How)
    requires Increasing(st.waiting)
    ensures Loses(st, st.Depart(gone, how), gone)
  {
    DropIncreasing(st.waiting, Elements(gone));
  }

  lemma MarkIsRight<I, M>(st: State<I, M>, s: nat, m: M)
    requires s < |st.all| && m in st.all[s].members
    ensures RightMark(st, s, m, HeldStep(st, s, m).0, HeldStep(st, s, m).1)
  {
    Plainly(HeldStep(st, s, m).0);
  }

  lemma AdmitIsRight<I, M>(st: State<I, M>, id: Option<I>, members: Batch<M>)
    requires WellFormed(st)
    ensures var (st', out) := Step(st, Admit(id, members)); RightAdmit(st, id, members, st', out)
  {
    hide WellFormed, First, MemberWaits, IdWaits;
    FindTells(st, id);
    forall m ensures st.Holder(m).Some? <==> MemberWaits(st, m) { HolderTells(st, m); }
    var items := members.items;
    assert (forall m | m in items :: st.Holder(m).None?) <==>
           !exists i :: 0 <= i < |items| && MemberWaits(st, items[i]);
  }

  lemma MarkReadyIsRight<I, M>(st: State<I, M>, m: M)
    requires WellFormed(st)
    ensures var (st', out) := Step(st, MarkReady(m)); Right(st, MarkReady(m), st', out)
  {
    hide WellFormed, First, MemberWaits, RightMark, HeldStep;
    HolderTells(st, m);
    Plainly(st);
    if st.Holder(m).Some? { MarkIsRight(st, st.Holder(m).value, m); }
  }

  lemma MarkGroupIsRight<I, M>(st: State<I, M>, id: Option<I>)
    requires WellFormed(st)
    ensures var (st', out) := Step(st, MarkGroup(id)); Right(st, MarkGroup(id), st', out)
  {
    hide WellFormed, First, IdWaits;
    FindTells(st, id);
  }

  lemma CancelIsRight<I, M>(st: State<I, M>, id: Option<I>)
    requires WellFormed(st)
    ensures var (st', out) := Step(st, Cancel(id)); Right(st, Cancel(id), st', out)
  {
    hide Disjoint, Conserved, InLine, First, IdWaits, Loses, Drop;
    FindTells(st, id);
    if st.Find(id).Some? { DepartLoses(st, [st.Find(id).value], Withdrawn); }
  }

  lemma ReleaseIsRight<I, M>(st: State<I, M>)
    requires WellFormed(st)
    ensures var (st', out) := Step(st, Release); Right(st, Release, st', out)
  {
    hide Disjoint, Conserved, InLine, First, MayLeave, Loses, Drop, State.Next;
    NextTells(st);
    if st.Next().Some? { DepartLoses(st, [st.Next().value], Left); }
  }

  lemma ReleaseAllIsRight<I, M>(st: State<I, M>)
    requires WellFormed(st)
    ensures var (st', out) := Step(st, ReleaseAll); Right(st, ReleaseAll, st', out)
  {
    hide Disjoint, Conserved, InLine, Loses, Drop, Complete, Prefix, Keep;
    Plainly(st);
    DepartLoses(st, st.Departing(), Left);
    DepartingDeparts(st);
    if st.strict {
      assert forall i :: 0 <= i < |st.Departing()| ==> st.Departing()[i] in st.Departing();
    }
  }

  lemma StepIsRight<I, M>(st: State<I, M>, op: Op<I, M>)
    requires WellFormed(st)
    ensures Right(st, op, Step(st, op).0, Step(st, op).1)
  {
    hide WellFormed, First, RightAdmit, RightMark, HeldStep, MayLeave, MemberWaits, State.Next, Drop;
    match op
    case Admit(id, members) => AdmitIsRight(st, id, members);
    case MarkReady(m) => MarkReadyIsRight(st, m);
    case MarkGroup(id) => MarkGroupIsRight(st, id);
    case MarkHeld(s, m) =>
      Plainly(st);
      if st.Holds(s, m) { MarkIsRight(st, s, m); } else { RefusedMark(st, s, m); }
    case GroupOf(m) => HolderTells(st, m);
    case Cancel(id) => CancelIsRight(st, id);
    case Clear => ClearIsRight(st);
    case Peek => NextTells(st);
    case Release => ReleaseIsRight(st);
    case ReleaseAll => ReleaseAllIsRight(st);
  }

  lemma RefusedMark<I, M>(st: State<I, M>, s: nat, m: M)
    requires !st.Holds(s, m)
    ensures HeldStep(st, s, m) == (st, Rejected)
  {
  }

  lemma ClearIsRight<I, M>(st: State<I, M>)
    ensures Right(st, Clear, Step(st, Clear).0, Step(st, Clear).1)
  {
    DropAll(st.waiting, Elements(st.waiting));
  }

  // ---------- nothing else is right ----------

  /** At most one waiting group has an id, and at most one has a member. */
  lemma Apart<I, M>(st: State<I, M>, s: nat, t: nat)
    requires WellFormed(st) && s in st.waiting && t in st.waiting && s != t
    ensures forall id :: HasId(st, s, id) ==> !HasId(st, t, id)
    ensures forall m :: HasMember(st, s, m) ==> !HasMember(st, t, m)
  {
    assert forall m :: HasMember(st, s, m) ==> m in Elements(st.all[s].members);
    assert forall m :: HasMember(st, t, m) ==> m in Elements(st.all[t].members);
  }

  lemma OnlyMarksOnce<I, M>(st: State<I, M>, a: State<I, M>, b: State<I, M>, s: nat, marked: set<M>)
    requires OnlyMarks(st, a, s, marked) && OnlyMarks(st, b, s, marked)
    ensures a == b
  {
    assert a.all[s] == b.all[s];
    assert a.all == b.all;
  }

  lemma LosesOnce<I, M>(st: State<I, M>, a: State<I, M>, b: State<I, M>, gone: seq<nat>)
    requires Loses(st, a, gone) && Loses(st, b, gone)
    ensures a.waiting == b.waiting && a.all == b.all && a.strict == b.strict
  {
    IncreasingUnique(a.waiting, b.waiting);
  }

  lemma AllThatMayOnce<I, M>(st: State<I, M>, a: seq<nat>, b: seq<nat>)
    requires AllThatMay(st, a) && AllThatMay(st, b)
    ensures a == b
  {
    hide Complete;
    if st.strict {
      assert forall i :: 0 <= i < |a| ==> Complete(st, st.waiting[i]);
      assert forall i :: 0 <= i < |b| ==> Complete(st, st.waiting[i]);
      assert |a| == |b|;
    } else {
      IncreasingUnique(a, b);
    }
  }

  /** Two right outcomes of one call are the same. */
  lemma OneIsRight<I, M>(st: State<I, M>, op: Op<I, M>, a: State<I, M>, x: Outcome, b: State<I, M>, y: Outcome)
    requires WellFormed(st) && Right(st, op, a, x) && Right(st, op, b, y)
    ensures a == b && x == y
  {
    hide WellFormed, HasId, HasMember, Complete, MayLeave, Loses, OnlyMarks, AllThatMay, IdWaits, MemberWaits;
    match op
    case Admit(id, members) =>
      if x != Rejected { assert a.all == b.all; }
    case MarkReady(m) => OneMarkReady(st, m, a, x, b, y);
    case MarkGroup(id) => OneMarkGroup(st, id, a, x, b, y);
    case MarkHeld(s, m) =>
      if HasMember(st, s, m) { OnlyMarksOnce(st, a, b, s, st.all[s].marked + {m}); }
    case GroupOf(m) => OneGroupOf(st, m, x, y);
    case Cancel(id) => OneCancel(st, id, a, x, b, y);
    case Clear =>
    case Peek => OnePeek(st, x, y);
    case Release => OneRelease(st, a, x, b, y);
    case ReleaseAll =>
      AllThatMayOnce(st, x.groups, y.groups);
      LosesOnce(st, a, b, x.groups);
  }

  lemma SameMember<I, M>(st: State<I, M>, s: nat, t: nat, m: M)
    requires WellFormed(st) && s in st.waiting && t in st.waiting && HasMember(st, s, m) && HasMember(st, t, m)
    ensures s == t
  {
    hide WellFormed, HasMember, HasId;
    if s != t { Apart(st, s, t); }
  }

  lemma SameId<I, M>(st: State<I, M>, s: nat, t: nat, id: Option<I>)
    requires WellFormed(st) && s in st.waiting && t in st.waiting && HasId(st, s, id) && HasId(st, t, id)
    ensures s == t
  {
    hide WellFormed, HasMember, HasId;
    if s != t { Apart(st, s, t); }
  }

  lemma SameLeaver<I, M>(st: State<I, M>, s: nat, t: nat)
    requires MayLeave(st, s) && MayLeave(st, t)
    ensures s == t
  {
    hide Complete;
  }

  lemma OneMarkReady<I, M>(st: State<I, M>, m: M, a: State<I, M>, x: Outcome, b: State<I, M>, y: Outcome)
    requires WellFormed(st) && Right(st, MarkReady(m), a, x) && Right(st, MarkReady(m), b, y)
    ensures a == b && x == y
  {
    hide WellFormed, HasMember, OnlyMarks, MemberWaits, Complete;
    if MemberWaits(st, m) {
      var s :| s in st.waiting && HasMember(st, s, m) && RightMark(st, s, m, a, x);
      var t :| t in st.waiting && HasMember(st, t, m) && RightMark(st, t, m, b, y);
      SameMember(st, s, t, m);
      OnlyMarksOnce(st, a, b, s, st.all[s].marked + {m});
    }
  }

  lemma OneMarkGroup<I, M>(st: State<I, M>, id: Option<I>, a: State<I, M>, x: Outcome, b: State<I, M>, y: Outcome)
    requires WellFormed(st) && Right(st, MarkGroup(id), a, x) && Right(st, MarkGroup(id), b, y)
    ensures a == b && x == y
  {
    hide WellFormed, OnlyMarks, IdWaits;
    if IdWaits(st, id) {
      var s :| s in st.waiting && HasId(st, s, id) && x == Flag(true)
               && OnlyMarks(st, a, s, Elements(st.all[s].members));
      var t :| t in st.waiting && HasId(st, t, id) && y == Flag(true)
               && OnlyMarks(st, b, t, Elements(st.all[t].members));
      SameId(st, s, t, id);
      OnlyMarksOnce(st, a, b, s, Elements(st.all[s].members));
    }
  }

  lemma OneGroupOf<I, M>(st: State<I, M>, m: M, x: Outcome, y: Outcome)
    requires WellFormed(st) && Right(st, GroupOf(m), st, x) && Right(st, GroupOf(m), st, y)
    ensures x == y
  {
    hide WellFormed, HasMember, MemberWaits;
    if MemberWaits(st, m) {
      var s :| s in st.waiting && HasMember(st, s, m) && x == Maybe(Some(s));
      var t :| t in st.waiting && HasMember(st, t, m) && y == Maybe(Some(t));
      SameMember(st, s, t, m);
    }
  }

  lemma OneCancel<I, M>(st: State<I, M>, id: Option<I>, a: State<I, M>, x: Outcome, b: State<I, M>, y: Outcome)
    requires WellFormed(st) && RightCancel(st, id, a, x) && RightCancel(st, id, b, y)
    ensures a == b && x == y
  {
    hide WellFormed, HasId, Loses, IdWaits;
    if IdWaits(st, id) {
      var s :| s in st.waiting && HasId(st, s, id) && x == Maybe(Some(s)) && Loses(st, a, [s])
               && a.released == st.released && a.cancelled == st.cancelled + [s] && a.cleared == st.cleared;
      var t :| t in st.waiting && HasId(st, t, id) && y == Maybe(Some(t)) && Loses(st, b, [t])
               && b.released == st.released && b.cancelled == st.cancelled + [t] && b.cleared == st.cleared;
      SameId(st, s, t, id);
      LosesOnce(st, a, b, [s]);
    }
  }

  lemma OnePeek<I, M>(st: State<I, M>, x: Outcome, y: Outcome)
    requires Right(st, Peek, st, x) && Right(st, Peek, st, y)
    ensures x == y
  {
    hide MayLeave;
    if exists s :: s in st.waiting && MayLeave(st, s) {
      var s :| MayLeave(st, s) && x == Maybe(Some(s));
      var t :| MayLeave(st, t) && y == Maybe(Some(t));
      SameLeaver(st, s, t);
    }
  }

  lemma OneRelease<I, M>(st: State<I, M>, a: State<I, M>, x: Outcome, b: State<I, M>, y: Outcome)
    requires RightRelease(st, a, x) && RightRelease(st, b, y)
    ensures a == b && x == y
  {
    hide MayLeave, Loses;
    if exists s :: s in st.waiting && MayLeave(st, s) {
      var s :| MayLeave(st, s) && x == Maybe(Some(s)) && Loses(st, a, [s])
               && a.released == st.released + [s] && a.cancelled == st.cancelled && a.cleared == st.cleared;
      var t :| MayLeave(st, t) && y == Maybe(Some(t)) && Loses(st, b, [t])
               && b.released == st.released + [t] && b.cancelled == st.cancelled && b.cleared == st.cleared;
      SameLeaver(st, s, t);
      LosesOnce(st, a, b, [s]);
    }
  }

  /** The two definitions are one: an outcome of a call is right exactly when it is what `Step`
      gives. */
  lemma RightIsStep<I, M>(st: State<I, M>, op: Op<I, M>, st': State<I, M>, out: Outcome)
    requires WellFormed(st)
    ensures Right(st, op, st', out) <==> (st', out) == Step(st, op)
  {
    hide WellFormed, Right, Step;
    StepIsRight(st, op);
    if Right(st, op, st', out) { OneIsRight(st, op, st', out, Step(st, op).0, Step(st, op).1); }
  }

  // ---------- what follows for every call ----------

  /** When a call is refused, in terms of the groups that wait. */
  ghost predicate Refusable<I, M>(st: State<I, M>, op: Op<I, M>) {
    match op
    case Admit(id, members) =>
      || members.Text? || members.items == [] || !Distinct(members.items) || IdWaits(st, id)
      || exists i :: 0 <= i < |members.items| && MemberWaits(st, members.items[i])
    case MarkReady(m) => !MemberWaits(st, m)
    case MarkGroup(id) => !IdWaits(st, id)
    case MarkHeld(s, m) => !HasMember(st, s, m)
    case Cancel(id) => !IdWaits(st, id)
    case _ => false
  }

  /** A call is refused exactly then: an admission for a bare string, an empty or repetitive
      batch, or an id or member of a waiting group; a mark or a cancellation when no waiting group
      has the member or the id; a mark on a group itself for a stranger; and no other call. */
  lemma RefusedExactly<I, M>(st: State<I, M>, op: Op<I, M>)
    requires WellFormed(st)
    ensures Step(st, op).1 == Rejected <==> Refusable(st, op)
  {
    hide WellFormed, Step, IdWaits, MemberWaits, HasMember, HasId, Complete, OnlyMarks, Loses, MayLeave, AllThatMay;
    StepIsRight(st, op);
  }

  /** A refused call changes nothing. */
  lemma RefusalChangesNothing<I, M>(st: State<I, M>, op: Op<I, M>)
    ensures Step(st, op).1 == Rejected ==> Step(st, op).0 == st
  {
    hide First, Prefix, Keep, Drop, State.CanAdmit;
  }

  /** Nothing is lost: whatever leaves the line with a call is handed to the caller, once, and
      nothing else is. */
  lemma HandedExactly<I, M>(st: State<I, M>, op: Op<I, M>)
    requires WellFormed(st) && !op.Admit?
    ensures var (st', out) := Step(st, op);
      multiset(st.waiting) == multiset(st'.waiting) + multiset(Handed(op, out))
  {
    hide WellFormed, First, State.Next, State.Departing, State.Depart, State.Mark;
    LineOf(st);
    match op
    case Cancel(id) =>
      FindTells(st, id);
      if st.Find(id).Some? { DepartSplits(st, [st.Find(id).value], Withdrawn); }
    case Clear => DepartSplits(st, st.waiting, Flushed);
    case Release =>
      if st.Next().Some? {
        NextDeparts(st, st.Next().value);
        DepartSplits(st, [st.Next().value], Left);
      }
    case ReleaseAll => DepartSplits(st, st.Departing(), Left);
    case _ => StaysInLine(st, op);
  }

  lemma DepartSplits<I, M>(st: State<I, M>, gone: seq<nat>, how: How)
    requires Increasing(st.waiting) && Distinct(gone) && forall s | s in gone :: s in st.waiting
    ensures multiset(st.waiting) == multiset(st.Depart(gone, how).waiting) + multiset(gone)
  {
    DropSplits(st.waiting, gone);
  }

  lemma StaysInLine<I, M>(st: State<I, M>, op: Op<I, M>)
    requires op.MarkReady? || op.MarkGroup? || op.MarkHeld? || op.GroupOf? || op.Peek?
    ensures Step(st, op).0.waiting == st.waiting
  {
    hide First;
  }

  // ---------- the scan queue ----------

  /** The group with this member was admitted under the id None. */
  ghost predicate UnderNone<I, M>(st: State<I, M>, m: M) {
    exists s :: s in st.waiting && HasMember(st, s, m) && HasId(st, s, None)
  }

  ghost predicate RightScan<I, M>(st: State<I, M>, op: Op<I, M>, st': State<I, M>, out: Outcome) {
    match op
    case Admit(id, members) => RightAdmit(st, id, Items(members.items), st', out)
    case MarkReady(m) => if UnderNone(st, m) then st' == st && out == Rejected else Right(st, op, st', out)
    case GroupOf(m) => if UnderNone(st, m) then st' == st && out == Maybe(None) else Right(st, op, st', out)
    case _ => Right(st, op, st', out)
  }

  lemma UnderNoneTells<I, M>(st: State<I, M>, m: M)
    requires WellFormed(st)
    ensures HeldByNone(st, m) <==> UnderNone(st, m)
  {
    hide Disjoint, Conserved, InLine, First, HasMember;
    HolderTells(st, m);
    if UnderNone(st, m) {
      var s :| s in st.waiting && HasMember(st, s, m) && HasId(st, s, None);
      assert MemberWaits(st, m);
      SameMember(st, s, st.Holder(m).value, m);
    }
  }

  /** The same for the scan queue: its outcome is right exactly when it is what `ScanStep` gives. */
  lemma RightScanIsStep<I, M>(st: State<I, M>, op: Op<I, M>, st': State<I, M>, out: Outcome)
    requires WellFormed(st)
    ensures RightScan(st, op, st', out) <==> (st', out) == ScanStep(st, op)
  {
    hide WellFormed, Step, HeldByNone, UnderNone, RightAdmit, MemberWaits, RightCancel, RightRelease;
    match op
    case Admit(id, members) => RightIsStep(st, Admit(id, Items(members.items)), st', out);
    case MarkReady(m) =>
      UnderNoneTells(st, m);
      RightIsStep(st, op, st', out);
    case GroupOf(m) =>
      UnderNoneTells(st, m);
      RightIsStep(st, op, st', out);
    case _ => RightIsStep(st, op, st', out);
  }
}
