/** When an admission splits the two queues, somebody can be made late.

`TwoPolicies` shows that nobody is late as long as no admission splits the queues. Here is the
other half: after any split the callers can go on, without another split, so that a group which
both queues accept leaves the strict one while the relaxed one still holds it. */
module Lateness {
  import opened Lists
  import opened Discipline
  import opened Guarantees
  import opened TwoPolicies

  lemma AfterOne<I, M>(st: State<I, M>, ops: seq<Op<I, M>>, op: Op<I, M>)
    ensures After(st, ops + [op]) == Step(After(st, ops), op).0
  {
    hide Step;
    assert (ops + [op])[..|ops + [op]| - 1] == ops;
  }

  // ---------- completing the groups both queues know ----------

  function MarkMembers<I, M>(s: nat, ms: seq<M>): (r: seq<Op<I, M>>)
    ensures forall op | op in r :: op.MarkHeld?
  {
    if ms == [] then [] else MarkMembers(s, ms[..|ms| - 1]) + [MarkHeld(s, ms[|ms| - 1])]
  }

  ghost function Remarked<I, M>(st: State<I, M>, s: nat, marked: set<M>): State<I, M>
    requires s < |st.all|
  {
    st.(all := st.all[s := st.all[s].(marked := marked)])
  }

  lemma {:induction false} MarkMembersDo<I, M>(st: State<I, M>, s: nat, ms: seq<M>)
    requires s < |st.all| && forall m | m in ms :: m in st.all[s].members
    ensures After(st, MarkMembers(s, ms)) == Remarked(st, s, st.all[s].marked + Elements(ms))
  {
    hide First, Prefix, Keep, Drop;
    if ms == [] {
      assert st.all[s].marked + Elements(ms) == st.all[s].marked;
    } else {
      var front, m := ms[..|ms| - 1], ms[|ms| - 1];
      MarkMembersDo(st, s, front);
      AfterOne(st, MarkMembers(s, front), MarkHeld(s, m));
      assert st.all[s].marked + Elements(front) + {m} == st.all[s].marked + Elements(ms);
    }
  }

  /** Marks every member of the first `n` groups, in this queue or gone from it. */
  function Completing<I, M>(members: seq<seq<M>>): (r: seq<Op<I, M>>)
    ensures forall op | op in r :: op.MarkHeld?
  {
    if members == [] then []
    else
      var n := |members| - 1;
      Completing(members[..n]) + MarkMembers(n, members[n])
  }

  /** The first `n` groups are complete. */
  ghost function Whole<I, M>(st: State<I, M>, n: nat): State<I, M> {
    st.(all := seq(|st.all|, s requires 0 <= s < |st.all| => if s < n then st.all[s].MarkWhole() else st.all[s]))
  }

  lemma {:induction false} CompletingDoes<I, M>(st: State<I, M>, members: seq<seq<M>>)
    requires |members| <= |st.all|
    requires forall s: nat | s < |members| :: st.all[s].members == members[s] && st.all[s].Valid()
    ensures After(st, Completing(members)) == Whole(st, |members|)
  {
    hide Step;
    if members == [] {
      assert Whole(st, 0).all == st.all;
    } else {
      var n := |members| - 1;
      CompletingDoes(st, members[..n]);
      AfterMore(st, Completing(members[..n]), MarkMembers(n, members[n]));
      var before := Whole(st, n);
      assert before.all[n] == st.all[n];
      MarkMembersDo(before, n, members[n]);
      assert st.all[n].marked + Elements(members[n]) == Elements(members[n]);
      assert Remarked(before, n, Elements(members[n])).all == Whole(st, n + 1).all;
    }
  }

  lemma WholeReady<I, M>(st: State<I, M>, n: nat)
    ensures forall s: nat | s < |st.all| && s < n :: s in Whole(st, n).ReadySet()
    ensures forall s: nat | n <= s < |st.all| :: s in Whole(st, n).ReadySet() <==> s in st.ReadySet()
  {
    var whole := Whole(st, n);
    assert forall s: nat | s < |st.all| ::
      whole.all[s] == if s < n then st.all[s].MarkWhole() else st.all[s];
  }

  // ---------- the strict queue, from there ----------

  /** Everyone leaves; a new group comes, is completed, and leaves. */
  lemma StrictServes<I, M>(st: State<I, M>, taken: Option<I>, id: Option<I>, m: M)
    requires WellFormed(st) && st.strict && id != taken
    requires forall s | s in st.waiting :: s in st.ReadySet()
    ensures var n := |st.all|;
      var emptied := Step(st, ReleaseAll).0;
      var entered := Step(emptied, Admit(id, Items([m]))).0;
      var whole := Step(Step(entered, MarkGroup(taken)).0, MarkGroup(id)).0;
      && emptied.CanAdmit(id, [m]) && |emptied.all| == n
      && n in Step(whole, Release).0.released
  {
    StrictEmpties(st);
    var emptied := Step(st, ReleaseAll).0;
    StrictServesOne(emptied, taken, id, m);
  }

  lemma StrictEmpties<I, M>(st: State<I, M>)
    requires WellFormed(st) && st.strict
    requires forall s | s in st.waiting :: s in st.ReadySet()
    ensures var emptied := Step(st, ReleaseAll).0;
      emptied.waiting == [] && emptied.all == st.all && emptied.strict
  {
    hide WellFormed, Prefix, Drop;
    ReleaseAllExact(st);
    var emptied := Step(st, ReleaseAll).0;
  }

  lemma StrictServesOne<I, M>(st: State<I, M>, taken: Option<I>, id: Option<I>, m: M)
    requires st.waiting == [] && st.strict && id != taken
    ensures st.CanAdmit(id, [m])
    ensures var entered := Step(st, Admit(id, Items([m]))).0;
      var whole := Step(Step(entered, MarkGroup(taken)).0, MarkGroup(id)).0;
      |st.all| in Step(whole, Release).0.released
  {
    hide Drop, Prefix, Keep;
    var n := |st.all|;
    var entered := st.Enter(id, [m]);
    assert entered.waiting == [n] && entered.all[n] == Party(id, [m], {});
    assert entered.Find(taken).None?;
    FirstAt(entered.waiting, entered.WithId(id), 0);
    var whole := Step(entered, MarkGroup(id)).0;
    assert whole.all[n].Ready();
  }

  // ---------- the relaxed queue, from there ----------

  /** Everyone leaves but the extra group, number `x`; the same new group comes; both are
      completed; and the extra one leaves first. */
  lemma RelaxedServes<I, M>(st: State<I, M>, x: nat, id: Option<I>, m: M)
    requires WellFormed(st) && !st.strict && |st.all| == x + 1 && x in st.waiting
    requires st.all[x].id != id && m !in st.all[x].members
    requires forall s | s in st.waiting :: s in st.ReadySet() <==> s != x
    ensures var taken := st.all[x].id;
      var emptied := Step(st, ReleaseAll).0;
      var entered := Step(emptied, Admit(id, Items([m]))).0;
      var whole := Step(Step(entered, MarkGroup(taken)).0, MarkGroup(id)).0;
      && emptied.CanAdmit(id, [m]) && |emptied.all| == x + 1
      && x + 1 in Step(whole, Release).0.waiting
  {
    RelaxedEmpties(st, x);
    RelaxedServesOne(Step(st, ReleaseAll).0, x, id, m);
  }

  lemma RelaxedEmpties<I, M>(st: State<I, M>, x: nat)
    requires WellFormed(st) && !st.strict && x in st.waiting
    requires forall s | s in st.waiting :: s in st.ReadySet() <==> s != x
    ensures var emptied := Step(st, ReleaseAll).0;
      emptied.waiting == [x] && emptied.all == st.all && !emptied.strict
  {
    hide WellFormed, Keep, Drop;
    ReleaseAllExact(st);
    IncreasingUnique(Step(st, ReleaseAll).0.waiting, [x]);
  }

  lemma RelaxedServesOne<I, M>(st: State<I, M>, x: nat, id: Option<I>, m: M)
    requires st.waiting == [x] && !st.strict && |st.all| == x + 1
    requires st.all[x].id != id && m !in st.all[x].members
    ensures st.CanAdmit(id, [m])
    ensures var entered := Step(st, Admit(id, Items([m]))).0;
      var whole := Step(Step(entered, MarkGroup(st.all[x].id)).0, MarkGroup(id)).0;
      x + 1 in Step(whole, Release).0.waiting
  {
    hide Drop, Prefix, Keep, First;
    var entered := st.Enter(id, [m]);
    assert entered.waiting == [x, x + 1] && entered.all[x] == st.all[x] && entered.all[x + 1] == Party(id, [m], {});
    FirstAt(entered.waiting, entered.WithId(st.all[x].id), 0);
    var one := Step(entered, MarkGroup(st.all[x].id)).0;
    assert one.waiting == [x, x + 1] && one.all[x + 1] == entered.all[x + 1] && one.all[x].Ready();
    FirstAt(one.waiting, one.WithId(id), 1);
    var whole := Step(one, MarkGroup(id)).0;
    assert whole.waiting == [x, x + 1] && whole.all[x] == one.all[x];
    FirstAt(whole.waiting, whole.ReadySet(), 0);
  }

  // ---------- after any split ----------

  ghost predicate Unsplit<I, M>(ops: seq<Op<I, M>>, more: seq<Op<I, M>>) {
    forall j | |ops| <= j < |ops + more| :: Together(ops + more, j)
  }

  function Serving<I, M>(taken: Option<I>, id: Option<I>, m: M): seq<Op<I, M>> {
    [ReleaseAll, Admit(id, Items([m])), MarkGroup(taken), MarkGroup(id), Release]
  }

  lemma ServingDoes<I, M>(st: State<I, M>, taken: Option<I>, id: Option<I>, m: M)
    ensures var emptied := Step(st, ReleaseAll).0;
      var entered := Step(emptied, Admit(id, Items([m]))).0;
      var whole := Step(Step(entered, MarkGroup(taken)).0, MarkGroup(id)).0;
      && After(st, Serving(taken, id, m)[..1]) == emptied
      && After(st, Serving(taken, id, m)) == Step(whole, Release).0
  {
    hide Step;
    var ops: seq<Op<I, M>> := Serving(taken, id, m);
    assert ops[..0] == [] && ops[..5] == ops;
    AfterOne(st, ops[..0], ops[0]);
    AfterOne(st, ops[..1], ops[1]);
    AfterOne(st, ops[..2], ops[2]);
    AfterOne(st, ops[..3], ops[3]);
    AfterOne(st, ops[..4], ops[4]);
    assert ops[..1] == ops[..0] + [ops[0]] && ops[..2] == ops[..1] + [ops[1]] && ops[..3] == ops[..2] + [ops[2]];
    assert ops[..4] == ops[..3] + [ops[3]] && ops[..5] == ops[..4] + [ops[4]];
  }

  /** Marks of every member of every group known so far; then everyone leaves, a new group comes,
      the taken id's group and the new one are completed, and one group leaves. */
  ghost function Delaying<I, M>(ops: seq<Op<I, M>>, taken: Option<I>, id: Option<I>, m: M): seq<Op<I, M>> {
    Completing(MembersOf(After(Init<I, M>(true), ops))) + Serving(taken, id, m)
  }

  ghost function MembersOf<I, M>(st: State<I, M>): seq<seq<M>> {
    seq(|st.all|, s requires 0 <= s < |st.all| => st.all[s].members)
  }

  /** Where in the whole run the new group is admitted. */
  ghost function Arrival<I, M>(ops: seq<Op<I, M>>): nat {
    |ops| + 1 + |Completing<I, M>(MembersOf(After(Init<I, M>(true), ops)))| + 1
  }

  /** The run up to the marks, after them, and to the end, from either queue's point of view. */
  lemma DelayingRuns<I, M>(strict: bool, ops: seq<Op<I, M>>, op: Op<I, M>, id: Option<I>, m: M)
    requires op.Admit?
    requires var st := Step(After(Init<I, M>(strict), ops), op).0;
      var ms := MembersOf(After(Init<I, M>(true), ops));
      |ms| <= |st.all| && (forall s: nat | s < |ms| :: st.all[s].members == ms[s] && st.all[s].Valid())
    ensures var n := |After(Init<I, M>(true), ops).all|;
      var st := Whole(Step(After(Init<I, M>(strict), ops), op).0, n);
      var full := ops + [op] + Delaying(ops, op.id, id, m);
      && WellFormed(st)
      && Arrival(ops) < |full| && full[Arrival(ops)] == Admit(id, Items([m]))
      && After(Init<I, M>(strict), full[..Arrival(ops)]) == After(st, Serving(op.id, id, m)[..1])
      && After(Init<I, M>(strict), full) == After(st, Serving(op.id, id, m))
  {
    hide Step, WellFormed, Whole;
    var init := Init<I, M>(strict);
    var marks: seq<Op<I, M>> := Completing(MembersOf(After(Init<I, M>(true), ops)));
    var serving: seq<Op<I, M>> := Serving(op.id, id, m);
    var front := ops + [op] + marks;
    var full := ops + [op] + Delaying(ops, op.id, id, m);
    AfterOne(init, ops, op);
    AfterMore(init, ops + [op], marks);
    CompletingDoes(After(init, ops + [op]), MembersOf(After(Init<I, M>(true), ops)));
    RunKeeps(init, front);
    assert full == front + serving;
    assert full[..Arrival(ops)] == front + serving[..1] && full[Arrival(ops)] == serving[1];
    AfterMore(init, front, serving);
    AfterMore(init, front, serving[..1]);
  }

  lemma StrictEnd<I, M>(st: State<I, M>, taken: Option<I>, id: Option<I>, m: M)
    requires WellFormed(st) && st.strict && id != taken
    requires forall s | s in st.waiting :: s in st.ReadySet()
    ensures var entering := After(st, Serving(taken, id, m)[..1]);
      entering.CanAdmit(id, [m]) && |entering.all| == |st.all|
    ensures |st.all| in After(st, Serving(taken, id, m)).released
  {
    hide WellFormed, Step, After, Serving, State.CanAdmit;
    ServingDoes(st, taken, id, m);
    StrictServes(st, taken, id, m);
  }

  lemma RelaxedEnd<I, M>(st: State<I, M>, x: nat, id: Option<I>, m: M)
    requires WellFormed(st) && !st.strict && |st.all| == x + 1 && x in st.waiting
    requires st.all[x].id != id && m !in st.all[x].members
    requires forall s | s in st.waiting :: s in st.ReadySet() <==> s != x
    ensures var entering := After(st, Serving(st.all[x].id, id, m)[..1]);
      entering.CanAdmit(id, [m]) && |entering.all| == x + 1
    ensures x + 1 in After(st, Serving(st.all[x].id, id, m)).waiting
  {
    hide WellFormed, Step, After, Serving, State.CanAdmit;
    ServingDoes(st, st.all[x].id, id, m);
    RelaxedServes(st, x, id, m);
  }

  lemma NumberAt<I, M>(strict: bool, ops: seq<Op<I, M>>, i: nat, id: Option<I>, m: M)
    requires i < |ops| && ops[i] == Admit(id, Items([m]))
    ensures var st := After(Init<I, M>(strict), ops[..i]);
      && (st.CanAdmit(id, [m]) ==> Number(strict, ops, i) == Some(|st.all|))
      && (strict && st.CanAdmit(id, [m]) ==> Together(ops, i))
  {
    hide After, State.CanAdmit;
  }

  lemma StrictSide<I, M>(ops: seq<Op<I, M>>, op: Op<I, M>, id: Option<I>, m: M)
    requires SplitAdmission(After(Init<I, M>(true), ops), After(Init<I, M>(false), ops), op)
    requires id != op.id
    ensures var n := |After(Init<I, M>(true), ops).all|;
      var full := ops + [op] + Delaying(ops, op.id, id, m);
      && Arrival(ops) < |full|
      && Number(true, full, Arrival(ops)) == Some(n) && n in After(Init<I, M>(true), full).released
      && Together(full, Arrival(ops))
  {
    hide Whole, Arrival, Delaying, WellFormed, State.CanAdmit, After, Number, Together, Step, Serving;
    var a := After(Init<I, M>(true), ops);
    RunKeeps(Init<I, M>(true), ops);
    RefusedStays(a, op);
    KnownValid(a);
    StaysStrict(true, ops);
    DelayingRuns(true, ops, op, id, m);
    WholeKnows(a, |a.all|);
    StrictEnd(Whole(a, |a.all|), op.id, id, m);
    NumberAt(true, ops + [op] + Delaying(ops, op.id, id, m), Arrival(ops), id, m);
  }

  lemma RefusedStays<I, M>(st: State<I, M>, op: Op<I, M>)
    requires op.Admit? && !(op.members.Items? && st.CanAdmit(op.id, op.members.items))
    ensures Step(st, op).0 == st
  {
    hide State.CanAdmit;
  }

  lemma StaysStrict<I, M>(strict: bool, ops: seq<Op<I, M>>)
    ensures After(Init<I, M>(strict), ops).strict == strict
  {
    hide After;
    RunEvolves(Init<I, M>(strict), ops);
  }

  lemma KnownValid<I, M>(st: State<I, M>)
    requires WellFormed(st)
    ensures forall s: nat | s < |st.all| :: st.all[s].Valid()
    ensures forall s | s in st.waiting :: s < |st.all|
  {
  }

  lemma WholeKnows<I, M>(st: State<I, M>, n: nat)
    ensures Whole(st, n).waiting == st.waiting && Whole(st, n).strict == st.strict
    ensures |Whole(st, n).all| == |st.all|
    ensures forall s: nat | s < n && s < |st.all| :: s in Whole(st, n).ReadySet()
    ensures forall s: nat | n <= s < |st.all| :: Whole(st, n).all[s] == st.all[s]
    ensures forall s: nat | n <= s < |st.all| :: s in Whole(st, n).ReadySet() <==> s in st.ReadySet()
  {
    WholeReady(st, n);
  }

  lemma RelaxedSide<I, M>(ops: seq<Op<I, M>>, op: Op<I, M>, id: Option<I>, m: M)
    requires AheadAfter(ops)
    requires SplitAdmission(After(Init<I, M>(true), ops), After(Init<I, M>(false), ops), op)
    requires id != op.id && m !in op.members.items
    ensures var n := |After(Init<I, M>(true), ops).all|;
      var full := ops + [op] + Delaying(ops, op.id, id, m);
      && Arrival(ops) < |full|
      && Number(false, full, Arrival(ops)) == Some(n + 1) && n + 1 in After(Init<I, M>(false), full).waiting
      && n + 1 !in After(Init<I, M>(false), full).released
  {
    hide Whole, Arrival, Delaying, WellFormed, State.CanAdmit, After, Number, Together, Step, Serving;
    var n := |After(Init<I, M>(true), ops).all|;
    var b := After(Init<I, M>(false), ops);
    var full := ops + [op] + Delaying(ops, op.id, id, m);
    RunKeeps(Init<I, M>(false), ops);
    StaysStrict(false, ops);
    ExtraEnters(b, op);
    var entered := b.Enter(op.id, op.members.items);
    DelayingRuns(false, ops, op, id, m);
    WholeKnows(entered, n);
    RelaxedEnd(Whole(entered, n), n, id, m);
    NumberAt(false, full, Arrival(ops), id, m);
    RunKeeps(Init<I, M>(false), full);
    WaitingNotReleased(After(Init<I, M>(false), full), n + 1);
  }

  /** What the extra group is like right after it came. */
  lemma ExtraEnters<I, M>(b: State<I, M>, op: Op<I, M>)
    requires WellFormed(b) && op.Admit? && op.members.Items? && b.CanAdmit(op.id, op.members.items)
    ensures var entered := b.Enter(op.id, op.members.items);
      && Step(b, op).0 == entered
      && (forall s: nat | s < |b.all| :: entered.all[s] == b.all[s] && b.all[s].Valid())
      && |b.all| !in entered.ReadySet() && |b.all| in entered.waiting
      && (forall s | s in entered.waiting :: s <= |b.all|)
  {
    hide Disjoint, Conserved, InLine, First;
    assert op.members.items[0] in Elements(op.members.items);
    var entered := b.Enter(op.id, op.members.items);
    assert entered.waiting[|b.waiting|] == |b.all|;
  }

  lemma WaitingNotReleased<I, M>(st: State<I, M>, s: nat)
    requires WellFormed(st) && s in st.waiting
    ensures s !in st.released
  {
    assert Places(st, s) <= 1;
  }

  /** After any split, the calls of `Delaying` split nothing more, and make a group late that both
      queues have accepted: the strict queue has released it, and the relaxed queue still holds it. */
  lemma SplitDelays<I, M>(ops: seq<Op<I, M>>, op: Op<I, M>, id: Option<I>, m: M)
    requires AheadAfter(ops)
    requires SplitAdmission(After(Init<I, M>(true), ops), After(Init<I, M>(false), ops), op)
    requires id != op.id && m !in op.members.items
    ensures var more := Delaying(ops, op.id, id, m);
      var full := ops + [op] + more;
      && Unsplit(ops + [op], more)
      && (exists i :: 0 <= i < |full| && Late(full, i)
            && Number(false, full, i).value in After(Init<I, M>(false), full).waiting)
  {
    hide Arrival, After, Number, Delaying, State.CanAdmit;
    var more := Delaying(ops, op.id, id, m);
    var full := ops + [op] + more;
    StrictSide(ops, op, id, m);
    RelaxedSide(ops, op, id, m);
    assert Late(full, Arrival(ops));
    OneAdmission(ops, op, id, m);
  }

  lemma OneAdmission<I, M>(ops: seq<Op<I, M>>, op: Op<I, M>, id: Option<I>, m: M)
    requires op.Admit?
    requires var full := ops + [op] + Delaying(ops, op.id, id, m);
      Arrival(ops) < |full| && Together(full, Arrival(ops))
    ensures Unsplit(ops + [op], Delaying(ops, op.id, id, m))
  {
    hide After;
    var marks: seq<Op<I, M>> := Completing(MembersOf(After(Init<I, M>(true), ops)));
    var serving: seq<Op<I, M>> := Serving(op.id, id, m);
    var full := ops + [op] + Delaying(ops, op.id, id, m);
    assert full == ops + [op] + marks + serving;
    forall j | |ops| + 1 <= j < |full| ensures Together(full, j) {
      var k := j - |ops| - 1;
      if k < |marks| {
        assert full[j] == marks[k] && marks[k] in marks;
      } else {
        assert full[j] == serving[k - |marks|];
      }
    }
  }

  /** When an admission makes a difference: on a trace that has not split the queues, it splits
      them exactly when the callers can go on, without another split, so that a group which both
      queues accept is late. Any id and any member that it does not use itself will do. */
  lemma SplitIff<I, M>(ops: seq<Op<I, M>>, op: Op<I, M>, id: Option<I>, m: M)
    requires forall i | 0 <= i < |ops| :: Together(ops, i)
    requires op.Admit? && id != op.id && m !in op.members.items
    ensures SplitAdmission(After(Init<I, M>(true), ops), After(Init<I, M>(false), ops), op) <==>
            exists more :: Unsplit(ops + [op], more) && !NoneLater(ops + [op] + more)
  {
    hide After, Together, SplitAdmission, Late, Delaying;
    AlignedIff(ops);
    assert ops[..|ops|] == ops && AheadAfter(ops[..|ops|]);
    if SplitAdmission(After(Init<I, M>(true), ops), After(Init<I, M>(false), ops), op) {
      SplitDelays(ops, op, id, m);
      assert !NoneLater(ops + [op] + Delaying(ops, op.id, id, m));
    } else {
      forall more | Unsplit(ops + [op], more) ensures NoneLater(ops + [op] + more) {
        StillTogether(ops, op, more);
        var full := ops + [op] + more;
        RelaxedNeverLater(full);
        assert full[..|full|] == full && NoneLater(full[..|full|]);
      }
    }
  }

  lemma StillTogether<I, M>(ops: seq<Op<I, M>>, op: Op<I, M>, more: seq<Op<I, M>>)
    requires forall i | 0 <= i < |ops| :: Together(ops, i)
    requires !SplitAdmission(After(Init<I, M>(true), ops), After(Init<I, M>(false), ops), op)
    requires Unsplit(ops + [op], more)
    ensures var full := ops + [op] + more; forall i | 0 <= i < |full| :: Together(full, i)
  {
    hide After, SplitAdmission;
    var full := ops + [op] + more;
    forall i | 0 <= i < |full| ensures Together(full, i) {
      if i < |ops| {
        assert full[..i] == ops[..i] && full[i] == ops[i] && Together(ops, i);
      } else if i == |ops| {
        assert full[..i] == ops && full[i] == op;
      }
    }
  }

  /** Over whole traces: no admission of a trace splits the queues exactly when nothing that could
      follow any part of it, without a further split, would make a group late. */
  lemma UnsplitIff<I, M>(ops: seq<Op<I, M>>, id: Option<I>, m: M)
    requires forall op | op in ops && op.Admit? :: id != op.id && m !in op.members.items
    ensures (forall i | 0 <= i < |ops| :: Together(ops, i)) <==>
            (forall n, more | 0 <= n <= |ops| && Unsplit(ops[..n], more) :: NoneLater(ops[..n] + more))
  {
    hide After, Together, SplitAdmission, NoneLater;
    if forall i | 0 <= i < |ops| :: Together(ops, i) {
      forall n, more | 0 <= n <= |ops| && Unsplit(ops[..n], more) ensures NoneLater(ops[..n] + more) {
        PrefixTogether(ops, n, more);
        var full := ops[..n] + more;
        RelaxedNeverLater(full);
        assert full[..|full|] == full && NoneLater(full[..|full|]);
      }
    } else {
      FirstSplit(ops, |ops|, id, m);
    }
  }

  lemma PrefixTogether<I, M>(ops: seq<Op<I, M>>, n: nat, more: seq<Op<I, M>>)
    requires n <= |ops| && Unsplit(ops[..n], more) && forall i | 0 <= i < |ops| :: Together(ops, i)
    ensures var full := ops[..n] + more; forall i | 0 <= i < |full| :: Together(full, i)
  {
    hide After, SplitAdmission;
    var full := ops[..n] + more;
    forall i | 0 <= i < n ensures Together(full, i) {
      assert full[..i] == ops[..i] && full[i] == ops[i] && Together(ops, i);
    }
  }

  /** Among the first `k` calls, the first that splits. */
  lemma {:induction false} FirstSplit<I, M>(ops: seq<Op<I, M>>, k: nat, id: Option<I>, m: M)
    requires k <= |ops| && !(forall i | 0 <= i < k :: Together(ops, i))
    requires forall op | op in ops && op.Admit? :: id != op.id && m !in op.members.items
    ensures exists n, more :: 0 <= n <= |ops| && Unsplit(ops[..n], more) && !NoneLater(ops[..n] + more)
  {
    hide After, NoneLater, Unsplit;
    var j := k - 1;
    if forall i | 0 <= i < j :: Together(ops, i) {
      assert !Together(ops, j);
      var front, op := ops[..j], ops[j];
      forall i | 0 <= i < j ensures Together(front, i) {
        assert Together(ops, i) && front[..i] == ops[..i] && front[i] == ops[i];
      }
      assert op in ops && front + [op] == ops[..j + 1];
      SplitIff(front, op, id, m);
    } else {
      FirstSplit(ops, j, id, m);
    }
  }
}
