/** Whole runs of the C queue against whole runs of the scan queue.

A C caller has no object identity to compare, so here an answer shows a group by its value. */
module BoundedRuns {
  import opened Lists
  import opened Discipline
  import opened Guarantees
  import opened BoundedArray

  type Call = Op<Name, Name>
  type Line = State<Name, Name>
  type Shape = Party<Name, Name>

  datatype Answer =
    | Refused
    | Told(flag: bool)
    | Shown(group: Option<Shape>)
    | Listed(groups: seq<Shape>)

  ghost function ShapeOf(st: Line, s: nat): Shape {
    if s < |st.all| then st.all[s] else Party(None, [], {})
  }

  /** An answer of the discipline, with the groups it names shown as they are afterwards. */
  ghost function Show(st: Line, out: Outcome): Answer {
    match out
    case Rejected => Refused
    case Flag(b) => Told(b)
    case Maybe(None) => Shown(None)
    case Maybe(Some(s)) => Shown(Some(ShapeOf(st, s)))
    case Many(gs) => Listed(seq(|gs|, i requires 0 <= i < |gs| => ShapeOf(st, gs[i])))
  }

  /** An admission the scan queue would accept and the fixed sizes have no room for. */
  ghost predicate Overflows(st: Line, op: Call) {
    && op.Admit? && op.id.Some? && st.CanAdmit(op.id, op.members.items)
    && !Fits(op.id.value, op.members.items, |st.waiting|)
  }

  /** Such an admission, in figures. */
  ghost predicate TooLarge(st: Line, op: Call) {
    && op.Admit? && op.id.Some? && st.CanAdmit(op.id, op.members.items)
    && (|| |op.id.value| >= 32
        || (exists i :: 0 <= i < |op.members.items| && |op.members.items[i]| >= 32)
        || |op.members.items| >= 9
        || |st.waiting| >= 16)
  }

  lemma OverflowsInFigures(st: Line, op: Call)
    ensures Overflows(st, op) <==> TooLarge(st, op)
  {
    if op.Admit? && op.id.Some? { FitsInFigures(op.id.value, op.members.items, |st.waiting|); }
  }

  ghost function BoundedStep(st: Line, op: Call): (Line, Outcome) {
    if Overflows(st, op) then (st, Rejected) else ScanStep(st, op)
  }

  ghost function BoundedAfter(st: Line, ops: seq<Call>): Line {
    if ops == [] then st else BoundedStep(BoundedAfter(st, ops[..|ops| - 1]), ops[|ops| - 1]).0
  }

  ghost function BoundedAnswers(st: Line, ops: seq<Call>): seq<Answer> {
    if ops == [] then [] else
      var front := ops[..|ops| - 1];
      var (st', out) := BoundedStep(BoundedAfter(st, front), ops[|ops| - 1]);
      BoundedAnswers(st, front) + [Show(st', out)]
  }

  ghost function ScanAnswers(st: Line, ops: seq<Call>): seq<Answer> {
    if ops == [] then [] else
      var front := ops[..|ops| - 1];
      var (st', out) := ScanStep(ScanAfter(st, front), ops[|ops| - 1]);
      ScanAnswers(st, front) + [Show(st', out)]
  }

  /** Each of them is the answer of the scan queue to that call, at that point of its run, shown. */
  lemma {:induction false} ScanAnswerAt(st: Line, ops: seq<Call>, i: nat)
    requires i < |ops|
    ensures |ScanAnswers(st, ops)| == |ScanOutcomes(st, ops)| == |ops|
    ensures ScanAnswers(st, ops)[i] == Show(ScanAfter(st, ops[..i + 1]), ScanOutcomes(st, ops)[i])
  {
    hide ScanStep, Show;
    var front := ops[..|ops| - 1];
    if i < |front| {
      ScanAnswerAt(st, front, i);
      assert front[..i + 1] == ops[..i + 1];
    } else {
      if front != [] { ScanAnswerAt(st, front, 0); }
      assert ops[..i + 1] == ops;
    }
  }

  ghost predicate RunOverflows(st: Line, ops: seq<Call>) {
    exists i :: 0 <= i < |ops| && Overflows(ScanAfter(st, ops[..i]), ops[i])
  }

  lemma OverflowShows(st: Line, op: Call)
    ensures Show(BoundedStep(st, op).0, BoundedStep(st, op).1) == Show(ScanStep(st, op).0, ScanStep(st, op).1) <==>
            !Overflows(st, op)
    ensures !Overflows(st, op) ==> BoundedStep(st, op) == ScanStep(st, op)
  {
    hide State.CanAdmit;
  }

  lemma OverflowsLater(st: Line, ops: seq<Call>)
    requires ops != []
    ensures var n := |ops| - 1;
      RunOverflows(st, ops) <==> RunOverflows(st, ops[..n]) || Overflows(ScanAfter(st, ops[..n]), ops[n])
  {
    hide Overflows, ScanAfter;
    var n := |ops| - 1;
    var front := ops[..n];
    assert forall i | 0 <= i < n :: ops[..i] == front[..i] && ops[i] == front[i];
    if RunOverflows(st, front) {
      var i :| 0 <= i < n && Overflows(ScanAfter(st, front[..i]), front[i]);
      assert Overflows(ScanAfter(st, ops[..i]), ops[i]);
    }
    if RunOverflows(st, ops) {
      var i :| 0 <= i < |ops| && Overflows(ScanAfter(st, ops[..i]), ops[i]);
      assert i < n ==> Overflows(ScanAfter(st, front[..i]), front[i]);
    }
  }

  /** The bounded discipline answers like the scanning one through a whole run exactly when no
      admission overflows the fixed sizes. */
  lemma {:induction false} AnswersAgree(st: Line, ops: seq<Call>)
    ensures BoundedAnswers(st, ops) == ScanAnswers(st, ops) <==> !RunOverflows(st, ops)
    ensures !RunOverflows(st, ops) ==> BoundedAfter(st, ops) == ScanAfter(st, ops)
    ensures |BoundedAnswers(st, ops)| == |ScanAnswers(st, ops)| == |ops|
  {
    hide RunOverflows, Overflows, BoundedStep, ScanStep, Show;
    if ops == [] {
      NoneOverflows(st);
    } else {
      var n := |ops| - 1;
      AnswersAgree(st, ops[..n]);
      OverflowShows(ScanAfter(st, ops[..n]), ops[n]);
      OverflowsLater(st, ops);
      assert BoundedAnswers(st, ops)[..n] == BoundedAnswers(st, ops[..n]);
      assert ScanAnswers(st, ops)[..n] == ScanAnswers(st, ops[..n]);
    }
  }

  lemma NoneOverflows(st: Line)
    ensures !RunOverflows(st, [])
  {
  }

  /** An id one letter too long. */
  function LongAdmission(): Call {
    var id: Name := seq(MAX_NAME, _ => 'a');
    var member: Name := "b";
    var members: seq<Name> := [member];
    Op<Name, Name>.Admit(Some(id), Items(members))
  }

  /** It is enough for the two queues to part. */
  lemma LongIdOverflows()
    ensures RunOverflows(Init(true), [LongAdmission()])
  {
    var ops := [LongAdmission()];
    assert ops[..0] == [];
    assert Init<Name, Name>(true).CanAdmit(ops[0].id, ops[0].members.items);
    assert Overflows(ScanAfter(Init(true), ops[..0]), ops[0]);
  }

  // ---------- the C queue, call by call ----------

  lemma DepartingFew(st: Line)
    ensures |st.Departing()| <= |st.waiting|
  {
    KeepFew(st.waiting, st.ReadySet());
  }

  lemma {:induction false} KeepFew(xs: seq<nat>, s: set<nat>)
    ensures |Keep(xs, s)| <= |xs|
  {
    if xs != [] { KeepFew(xs[1..], s); }
  }

  /** The queue took this step and gave this answer. */
  ghost predicate Follows(st: Line, op: Call, st': Line, answer: Answer) {
    st' == BoundedStep(st, op).0 && answer == Show(st', BoundedStep(st, op).1)
  }

  lemma CallFollowsScan(q: CQueue, op: Call)
    requires q.Valid() && Spoken(op)
    ensures ScanStep(q.core, op) == Step(q.core, op)
    ensures !op.Admit? ==> BoundedStep(q.core, op) == Step(q.core, op)
  {
    hide Slots, WellFormed, Step, ScanStep;
    FollowsScan(q.groups[..q.groupCount], q.core, op);
  }

  /** What a copy of the group in a slot shows. */
  method ShowSlot(q: CQueue, g: int) returns (answer: Answer)
    requires q.Valid() && -1 <= g < q.groupCount
    ensures q.groupCount == |q.core.waiting|
    ensures answer == Show(q.core, Maybe(if g < 0 then None else Some(q.core.waiting[g])))
  {
    hide WellFormed, Slots, Names, Marked;
    q.SlotsCount();
    if g < 0 {
      return Shown(None);
    }
    q.SlotOf(g);
    return Shown(Some(Value(q.groups[g])));
  }

  method AdmitC(q: CQueue, id: Name, items: seq<Name>) returns (answer: Answer)
    requires q.Valid()
    modifies q, q.groups
    ensures q.Valid() && Follows(old(q.core), Op.Admit(Some(id), Items(items)), q.core, answer)
  {
    hide WellFormed, Slots, Distinct, First;
    CallFollowsScan(q, Op.Admit(Some(id), Items(items)));
    assert items[..|items|] == items;
    var r := q.Admit(id, items, |items|);
    if r < 0 {
      return Refused;
    }
    q.SlotsCount();
    answer := ShowSlot(q, r);
  }

  method MarkReadyC(q: CQueue, m: Name) returns (answer: Answer)
    requires q.Valid()
    modifies q, q.groups
    ensures q.Valid() && Follows(old(q.core), Op.MarkReady(m), q.core, answer)
  {
    hide WellFormed, Slots, First, State.Mark;
    CallFollowsScan(q, Op.MarkReady(m));
    var r := q.MarkReady(m);
    return if r < 0 then Refused else Told(r == 1);
  }

  method MarkGroupC(q: CQueue, id: Name) returns (answer: Answer)
    requires q.Valid()
    modifies q, q.groups
    ensures q.Valid() && Follows(old(q.core), MarkGroup(Some(id)), q.core, answer)
  {
    hide WellFormed, Slots, First;
    CallFollowsScan(q, MarkGroup(Some(id)));
    var r := q.MarkGroupReady(id);
    return if r < 0 then Refused else Told(true);
  }

  method GroupOfC(q: CQueue, m: Name) returns (answer: Answer)
    requires q.Valid()
    ensures Follows(q.core, GroupOf(m), q.core, answer)
  {
    hide WellFormed, Slots, First;
    CallFollowsScan(q, GroupOf(m));
    var g := q.GroupOf(m);
    answer := ShowSlot(q, g);
  }

  method PeekC(q: CQueue) returns (answer: Answer)
    requires q.Valid()
    ensures Follows(q.core, Peek, q.core, answer)
  {
    hide WellFormed, Slots, First;
    CallFollowsScan(q, Peek);
    var g := q.PeekIndex();
    answer := ShowSlot(q, g);
  }

  method CancelC(q: CQueue, id: Name) returns (answer: Answer)
    requires q.Valid()
    modifies q, q.groups
    ensures q.Valid() && Follows(old(q.core), Op.Cancel(Some(id)), q.core, answer)
  {
    hide WellFormed, Slots, First, Drop, Names, Marked;
    CallFollowsScan(q, Op.Cancel(Some(id)));
    var r := q.Cancel(id);
    return if r.Failure? then Refused else Shown(Some(Value(r.value)));
  }

  method ReleaseC(q: CQueue) returns (answer: Answer)
    requires q.Valid()
    modifies q, q.groups
    ensures q.Valid() && Follows(old(q.core), Op.Release, q.core, answer)
  {
    hide WellFormed, Slots, First, Drop, Names, Marked;
    CallFollowsScan(q, Op.Release);
    var r := q.Release();
    return Shown(if r.None? then None else Some(Value(r.value)));
  }

  /** The first groups of the caller's buffer, as values. */
  method ShowOut(out: array<CGroup>, count: nat, ghost st: Line, ghost seqnos: seq<nat>) returns (shapes: seq<Shape>)
    requires count <= out.Length && count == |seqnos|
    requires forall i | 0 <= i < count ::
      ValidGroup(out[i]) && seqnos[i] < |st.all| && Value(out[i]) == st.all[seqnos[i]]
    ensures Listed(shapes) == Show(st, Many(seqnos))
  {
    hide Names, Marked, Distinct;
    shapes := [];
    for i := 0 to count
      invariant |shapes| == i && forall j | 0 <= j < i :: shapes[j] == ShapeOf(st, seqnos[j])
    {
      shapes := shapes + [Value(out[i])];
    }
  }

  method ReleaseAllC(q: CQueue, out: array<CGroup>) returns (answer: Answer)
    requires q.Valid() && out != q.groups && out.Length == MAX_GROUPS
    modifies q, q.groups, out
    ensures q.Valid() && Follows(old(q.core), Op.ReleaseAll, q.core, answer)
  {
    hide WellFormed, Slots, First, Drop, Names, Marked, State.Departing;
    CallFollowsScan(q, Op.ReleaseAll);
    DepartingFew(q.core);
    q.SlotsCount();
    ghost var st := q.core;
    var count := q.ReleaseAll(out, MAX_GROUPS);
    assert count == |st.Departing()| && st.Departing()[..count] == st.Departing();
    var shapes := ShowOut(out, count, q.core, st.Departing());
    return Listed(shapes);
  }

  method ClearC(q: CQueue, out: array<CGroup>) returns (answer: Answer)
    requires q.Valid() && out != q.groups && out.Length == MAX_GROUPS
    modifies q, out
    ensures q.Valid() && Follows(old(q.core), Op.Clear, q.core, answer)
  {
    hide WellFormed, Slots, First, Drop, Names, Marked;
    CallFollowsScan(q, Op.Clear);
    q.SlotsCount();
    ghost var st := q.core;
    var count := q.Clear(out, MAX_GROUPS);
    var shapes := ShowOut(out, count, q.core, st.waiting);
    return Listed(shapes);
  }

  /** A call a C caller can make: its arguments are strings and arrays, and it goes through the
      queue, not through a pointer into it. */
  ghost predicate Callable(op: Call) {
    Spoken(op) && !op.MarkHeld?
  }

  /** One call; `out` is the caller's buffer, as large as the queue. */
  method CallC(q: CQueue, out: array<CGroup>, op: Call) returns (answer: Answer)
    requires q.Valid() && Callable(op) && out != q.groups && out.Length == MAX_GROUPS
    modifies q, q.groups, out
    ensures q.Valid() && Follows(old(q.core), op, q.core, answer)
  {
    hide Slots, WellFormed, Follows;
    match op
    case Admit(id, members) =>
      assert op == Op.Admit(Some(id.value), Items(members.items));
      answer := AdmitC(q, id.value, members.items);
    case MarkReady(m) => answer := MarkReadyC(q, m);
    case MarkGroup(id) =>
      assert op == MarkGroup(Some(id.value));
      answer := MarkGroupC(q, id.value);
    case GroupOf(m) => answer := GroupOfC(q, m);
    case Cancel(id) =>
      assert op == Op.Cancel(Some(id.value));
      answer := CancelC(q, id.value);
    case Clear => answer := ClearC(q, out);
    case Peek => answer := PeekC(q);
    case Release => answer := ReleaseC(q);
    case ReleaseAll => answer := ReleaseAllC(q, out);
  }

  /** Runs a script on a fresh C queue, laid out in memory of any contents. What the caller sees is
      what it would see of the scan queue exactly when no admission overflows the fixed sizes. */
  method RunC(strict: bool, memory: seq<CGroup>, script: seq<Call>) returns (answers: seq<Answer>)
    requires |memory| == MAX_GROUPS && forall g | 0 <= g < MAX_GROUPS :: Sized(memory[g])
    requires forall op | op in script :: Callable(op)
    ensures answers == BoundedAnswers(Init(strict), script)
    ensures answers == ScanAnswers(Init(strict), script) <==> !RunOverflows(Init(strict), script)
    ensures answers == ScanAnswers(Init(strict), script) <==>
      forall i | 0 <= i < |script| :: !TooLarge(ScanAfter(Init(strict), script[..i]), script[i])
  {
    hide CQueue.Valid, BoundedStep, Show, Callable, Sized, TooLarge, Overflows, ScanAfter, ScanAnswers;
    var groups := new CGroup[MAX_GROUPS](i requires 0 <= i < |memory| => memory[i]);
    var out := new CGroup[MAX_GROUPS](i requires 0 <= i < |memory| => memory[i]);
    var q := new CQueue(strict, groups);
    answers := [];
    for i := 0 to |script|
      invariant q.Valid() && fresh(q) && q.groups == groups
      invariant q.core == BoundedAfter(Init(strict), script[..i])
      invariant answers == BoundedAnswers(Init(strict), script[..i])
    {
      assert script[..i + 1][..i] == script[..i];
      var answer := CallC(q, out, script[i]);
      answers := answers + [answer];
    }
    assert script[..|script|] == script;
    AnswersAgree(Init(strict), script);
    forall i | 0 <= i < |script|
      ensures Overflows(ScanAfter(Init(strict), script[..i]), script[i]) <==>
              TooLarge(ScanAfter(Init(strict), script[..i]), script[i])
    {
      OverflowsInFigures(ScanAfter(Init(strict), script[..i]), script[i]);
    }
  }

  // ---------- a pointer into the queue ----------

  lemma {:induction false} NeverBefore(w: seq<nat>, w': seq<nat>, n: nat, j: nat)
    requires Increasing(w) && Increasing(w') && (forall s | s in w :: s < n) && (forall s | s in w' :: s in w || s >= n)
    requires j < |w| && j < |w'|
    ensures w'[j] >= w[j]
  {
    assert w'[j] in w' && w[j] in w;
    if w'[j] in w {
      var r :| 0 <= r < |w| && w[r] == w'[j];
      if j > 0 {
        NeverBefore(w, w', n, j - 1);
        assert w'[j - 1] < w'[j];
        assert r > j - 1;
      }
    }
  }

  /** If everyone up to a place stays, the place stays. */
  lemma {:induction false} StaysInPlace(w: seq<nat>, w': seq<nat>, n: nat, j: nat)
    requires Increasing(w) && Increasing(w') && (forall s | s in w :: s < n) && (forall s | s in w' :: s in w || s >= n)
    requires j < |w| && forall i | 0 <= i <= j :: w[i] in w'
    ensures j < |w'| && w'[j] == w[j]
  {
    assert w[j] in w';
    var q :| 0 <= q < |w'| && w'[q] == w[j];
    if j > 0 {
      StaysInPlace(w, w', n, j - 1);
      assert q > j - 1;
    }
    if q > j {
      assert w[j] in w;
      NeverBefore(w, w', n, j);
    }
  }

  /** If a place stays, everyone before it has stayed. */
  lemma {:induction false} PlaceTells(w: seq<nat>, w': seq<nat>, n: nat, p: nat, i: nat)
    requires Increasing(w) && Increasing(w') && (forall s | s in w :: s < n) && (forall s | s in w' :: s in w || s >= n)
    requires i <= p < |w| && p < |w'| && w'[p] == w[p]
    ensures w'[i] == w[i]
    decreases p - i
  {
    if i < p {
      PlaceTells(w, w', n, p, i + 1);
      NeverBefore(w, w', n, i);
      assert w[i + 1] in w && w'[i] in w' && w'[i] < w'[i + 1];
      var r :| 0 <= r < |w| && w[r] == w'[i];
      assert r < i + 1;
    }
  }

  lemma BoundedStepEvolves(st: Line, op: Call)
    requires WellFormed(st)
    ensures WellFormed(BoundedStep(st, op).0) && Evolves(st, BoundedStep(st, op).0)
  {
    hide WellFormed, Step, State.CanAdmit, First;
    var plain := if op.Admit? then Op<Name, Name>.Admit(op.id, Items(op.members.items)) else op;
    StepKeeps(st, plain);
    StepEvolves(st, plain);
  }

  lemma {:induction false} BoundedEvolves(st: Line, ops: seq<Call>)
    requires WellFormed(st)
    ensures WellFormed(BoundedAfter(st, ops)) && Evolves(st, BoundedAfter(st, ops))
  {
    hide WellFormed, BoundedStep;
    if ops != [] {
      var front := ops[..|ops| - 1];
      BoundedEvolves(st, front);
      BoundedStepEvolves(BoundedAfter(st, front), ops[|ops| - 1]);
    }
  }

  /** A `Group *` into slot `p` goes on denoting the group it was obtained for exactly as long as
      neither that group nor one in a slot before it has departed. */
  lemma PointerHolds(st: Line, ops: seq<Call>, p: nat)
    requires WellFormed(st) && p < |st.waiting|
    ensures var w, w' := st.waiting, BoundedAfter(st, ops).waiting;
      (p < |w'| && w'[p] == w[p]) <==> forall i | 0 <= i <= p :: w[i] in w'
  {
    hide Disjoint, Conserved, InLine, BoundedAfter;
    BoundedEvolves(st, ops);
    var w, w', n := st.waiting, BoundedAfter(st, ops).waiting, |st.all|;
    if forall i | 0 <= i <= p :: w[i] in w' {
      StaysInPlace(w, w', n, p);
    }
    if p < |w'| && w'[p] == w[p] {
      forall i | 0 <= i <= p ensures w[i] in w' { PlaceTells(w, w', n, p, i); }
    }
  }

  // ---------- what an answer tells ----------

  /** Two answers look alike exactly when they are of one kind and name, place by place, groups
      that look alike. */
  lemma ShowTells(st: Line, a: Outcome, b: Outcome)
    ensures Show(st, a) == Show(st, b) <==>
      || (a.Rejected? && b.Rejected?)
      || (a.Flag? && b.Flag? && a.value == b.value)
      || (a.Maybe? && b.Maybe? && a.found.None? && b.found.None?)
      || (a.Maybe? && b.Maybe? && a.found.Some? && b.found.Some?
          && ShapeOf(st, a.found.value) == ShapeOf(st, b.found.value))
      || (a.Many? && b.Many? && |a.groups| == |b.groups|
          && forall i | 0 <= i < |a.groups| :: ShapeOf(st, a.groups[i]) == ShapeOf(st, b.groups[i]))
  {
    if a.Many? && b.Many? {
      var x, y := Show(st, a).groups, Show(st, b).groups;
      assert forall i | 0 <= i < |x| :: x[i] == ShapeOf(st, a.groups[i]);
      assert forall i | 0 <= i < |y| :: y[i] == ShapeOf(st, b.groups[i]);
      assert x == y ==> forall i | 0 <= i < |x| :: x[i] == y[i];
    }
  }

  /** And groups that wait together never look alike. */
  lemma ShapesDiffer(st: Line, s: nat, t: nat)
    requires WellFormed(st) && s in st.waiting && t in st.waiting && s != t
    ensures s < |st.all| && t < |st.all| && ShapeOf(st, s) != ShapeOf(st, t)
  {
  }
}
