/** One trace, two queues: relaxed order is never later than strict order. */
module TwoPolicies {
  import opened Lists
  import opened Discipline
  import opened Guarantees

  /** The relaxed queue `b` is at least as far along as the strict queue `a`. */
  ghost predicate Ahead<I, M>(a: State<I, M>, b: State<I, M>) {
    && a.strict && !b.strict
    && a.all == b.all
    && (forall s | s in b.waiting :: s in a.waiting)
    && (forall s | s in a.waiting && s !in b.waiting :: s in b.released)
    && (forall s | s in a.released :: s in b.released)
  }

  /** The relaxed queue accepts a group that the strict queue, still holding its id or one of
      its members, has to refuse. */
  ghost predicate SplitAdmission<I, M>(a: State<I, M>, b: State<I, M>, op: Op<I, M>) {
    op.Admit? && op.members.Items?
    && !a.CanAdmit(op.id, op.members.items) && b.CanAdmit(op.id, op.members.items)
  }

  lemma AheadFinds<I, M>(a: State<I, M>, b: State<I, M>)
    requires WellFormed(a) && WellFormed(b) && Ahead(a, b)
    ensures forall id :: b.Find(id).Some? ==> a.Find(id) == b.Find(id)
    ensures forall m :: b.Holder(m).Some? ==> a.Holder(m) == b.Holder(m)
    ensures forall id :: a.Find(id).Some? && b.Find(id).None? ==> a.Find(id).value in b.ReadySet()
    ensures forall m :: a.Holder(m).Some? && b.Holder(m).None? ==> a.Holder(m).value in b.ReadySet()
  {
    forall id | b.Find(id).Some? ensures a.Find(id) == b.Find(id) { FindIs(a, b.Find(id).value); }
    forall m | b.Holder(m).Some? ensures a.Holder(m) == b.Holder(m) { FindIs(a, b.Holder(m).value); }
    forall id | a.Find(id).Some? && b.Find(id).None? ensures a.Find(id).value in b.ReadySet() {
      assert a.Find(id).value in b.WithId(id);
    }
    forall m | a.Holder(m).Some? && b.Holder(m).None? ensures a.Holder(m).value in b.ReadySet() {
      assert a.Holder(m).value in b.WithMember(m);
    }
  }

  lemma AheadDeparts<I, M>(a: State<I, M>, b: State<I, M>, ga: seq<nat>, gb: seq<nat>, how: How)
    requires Ahead(a, b)
    requires forall s | s in ga :: s in a.waiting
    requires forall s | s in gb :: s in b.waiting
    requires forall s | s in ga && s in b.waiting :: s in gb
    requires !how.Left? ==> forall s | s in gb :: s in ga
    ensures Ahead(a.Depart(ga, how), b.Depart(gb, how))
  {
  }

  lemma AheadNext<I, M>(a: State<I, M>, b: State<I, M>, s: nat)
    requires WellFormed(a) && Ahead(a, b)
    requires Increasing(b.waiting) && a.Next() == Some(s) && s in b.waiting
    ensures b.Next() == Some(s)
  {
    assert s in b.ReadySet();
    assert a.waiting[0] == s && forall t | t in a.waiting :: s <= t;
  }

  /** One call on both queues keeps the relaxed one ahead, except a split admission. */
  lemma StepAhead<I, M>(a: State<I, M>, b: State<I, M>, op: Op<I, M>)
    requires WellFormed(a) && WellFormed(b) && Ahead(a, b)
    ensures Ahead(Step(a, op).0, Step(b, op).0) <==> !SplitAdmission(a, b, op)
  {
    AheadFinds(a, b);
    match op
    case Admit(id, members) =>
      if members.Items? && a.CanAdmit(id, members.items) {
        assert forall m | m in members.items :: b.Holder(m).None?;
        assert b.CanAdmit(id, members.items);
      }
    case MarkReady(m) => MarkReadyAhead(a, b, m);
    case MarkGroup(id) => MarkGroupAhead(a, b, id);
    case MarkHeld(s, m) =>
    case GroupOf(m) =>
    case Cancel(id) =>
      DepartNobody(b, Withdrawn);
      if a.Find(id).Some? {
        var s := a.Find(id).value;
        if b.Find(id).None? { assert s in a.WithId(id) && s in b.WithId(id); }
        AheadDeparts(a, b, [s], if b.Find(id).Some? then [s] else [], Withdrawn);
      }
    case Clear => AheadDeparts(a, b, a.waiting, b.waiting, Flushed);
    case Peek =>
    case Release => ReleaseAhead(a, b);
    case ReleaseAll =>
      DepartingDeparts(a);
      DepartingDeparts(b);
      AheadDeparts(a, b, a.Departing(), b.Departing(), Left);
  }

  lemma MarkReadyAhead<I, M>(a: State<I, M>, b: State<I, M>, m: M)
    requires WellFormed(a) && WellFormed(b) && Ahead(a, b)
    ensures Ahead(Step(a, MarkReady(m)).0, Step(b, MarkReady(m)).0)
  {
    AheadFinds(a, b);
    if a.Holder(m).Some? && b.Holder(m).None? {
      var s := a.Holder(m).value;
      assert s in a.WithMember(m) && m in Elements(a.all[s].members);
      assert a.all[s].Mark(m) == a.all[s];
    }
  }

  lemma MarkGroupAhead<I, M>(a: State<I, M>, b: State<I, M>, id: Option<I>)
    requires WellFormed(a) && WellFormed(b) && Ahead(a, b)
    ensures Ahead(Step(a, MarkGroup(id)).0, Step(b, MarkGroup(id)).0)
  {
    AheadFinds(a, b);
    if a.Find(id).Some? && b.Find(id).None? {
      var s := a.Find(id).value;
      assert a.all[s].Valid() && a.all[s].MarkWhole() == a.all[s];
    }
  }

  ghost function Leaver<I, M>(st: State<I, M>): seq<nat> {
    if st.Next().Some? then [st.Next().value] else []
  }

  lemma LeaverLeaves<I, M>(st: State<I, M>)
    ensures Step(st, Release).0 == st.Depart(Leaver(st), Left)
    ensures forall s | s in Leaver(st) :: s in st.waiting
  {
    DepartNobody(st, Left);
  }

  lemma ReleaseAhead<I, M>(a: State<I, M>, b: State<I, M>)
    requires WellFormed(a) && WellFormed(b) && Ahead(a, b)
    ensures Ahead(Step(a, Release).0, Step(b, Release).0)
  {
    LeaverLeaves(a);
    LeaverLeaves(b);
    if a.Next().Some? && a.Next().value in b.waiting { AheadNext(a, b, a.Next().value); }
    AheadDeparts(a, b, Leaver(a), Leaver(b), Left);
  }

  ghost predicate AheadAfter<I, M>(ops: seq<Op<I, M>>) {
    Ahead(After(Init<I, M>(true), ops), After(Init<I, M>(false), ops))
  }

  /** Call `i` of the run does not split. */
  ghost predicate Together<I, M>(ops: seq<Op<I, M>>, i: nat)
    requires i < |ops|
  {
    !SplitAdmission(After(Init<I, M>(true), ops[..i]), After(Init<I, M>(false), ops[..i]), ops[i])
  }

  lemma AheadNow<I, M>(ops: seq<Op<I, M>>, i: nat)
    requires i < |ops| && AheadAfter(ops[..i])
    ensures AheadAfter(ops[..i + 1]) <==> Together(ops, i)
  {
    var front := ops[..i];
    assert ops[..i + 1][..i] == front;
    RunKeeps(Init<I, M>(true), front);
    RunKeeps(Init<I, M>(false), front);
    StepAhead(After(Init<I, M>(true), front), After(Init<I, M>(false), front), ops[i]);
  }

  lemma {:induction false} TogetherAhead<I, M>(ops: seq<Op<I, M>>, n: nat)
    requires n <= |ops| && forall i | 0 <= i < |ops| :: Together(ops, i)
    ensures AheadAfter(ops[..n])
  {
    if n > 0 {
      TogetherAhead(ops, n - 1);
      AheadNow(ops, n - 1);
    }
  }

  /** The two queues stay aligned: on one trace, at every moment, they have admitted the same
      groups, the relaxed line is the strict line without groups already released, and all that
      the strict queue has released the relaxed queue has released. They stay aligned exactly
      when no call admits a group that only the relaxed queue has room for. */
  lemma AlignedIff<I, M>(ops: seq<Op<I, M>>)
    ensures (forall n | 0 <= n <= |ops| :: AheadAfter(ops[..n])) <==>
            (forall i | 0 <= i < |ops| :: Together(ops, i))
  {
    if forall i | 0 <= i < |ops| :: Together(ops, i) {
      forall n | 0 <= n <= |ops| ensures AheadAfter(ops[..n]) { TogetherAhead(ops, n); }
    } else {
      var i :| 0 <= i < |ops| && !Together(ops, i);
      if AheadAfter(ops[..i]) { AheadNow(ops, i); }
    }
  }

  // ---------- lateness ----------

  /** The number that call `i` gave the group it admitted, if it admitted one. */
  ghost function Number<I, M>(strict: bool, ops: seq<Op<I, M>>, i: nat): Option<nat>
    requires i < |ops|
  {
    var out := Step(After(Init<I, M>(strict), ops[..i]), ops[i]).1;
    if ops[i].Admit? && out.Maybe? then out.found else None
  }

  /** Both queues accepted the group of call `i`, each under a number of its own; by now it has
      left the strict queue, and it has not left the relaxed one. */
  ghost predicate Late<I, M>(ops: seq<Op<I, M>>, i: nat)
    requires i < |ops|
  {
    var inStrict, inRelaxed := Number(true, ops, i), Number(false, ops, i);
    && inStrict.Some? && inStrict.value in After(Init<I, M>(true), ops).released
    && inRelaxed.Some? && inRelaxed.value !in After(Init<I, M>(false), ops).released
  }

  ghost predicate NoneLater<I, M>(ops: seq<Op<I, M>>) {
    forall i | 0 <= i < |ops| :: !Late(ops, i)
  }

  /** While the queues are aligned, what the strict one accepts the relaxed one accepts, under the
      same number. */
  lemma NumbersAgree<I, M>(ops: seq<Op<I, M>>, i: nat)
    requires i < |ops| && AheadAfter(ops[..i])
    ensures Number(true, ops, i).Some? ==> Number(false, ops, i) == Number(true, ops, i)
  {
    hide WellFormed, First;
    var a, b := After(Init<I, M>(true), ops[..i]), After(Init<I, M>(false), ops[..i]);
    RunKeeps(Init<I, M>(true), ops[..i]);
    RunKeeps(Init<I, M>(false), ops[..i]);
    AheadFinds(a, b);
  }

  /** Relaxed order is never later: on a trace without split admissions the relaxed queue accepts
      every group the strict one accepts, and each has left the relaxed queue by the time it
      leaves the strict one. */
  lemma RelaxedNeverLater<I, M>(ops: seq<Op<I, M>>)
    requires forall i | 0 <= i < |ops| :: Together(ops, i)
    ensures forall n | 0 <= n <= |ops| :: NoneLater(ops[..n])
    ensures forall i | 0 <= i < |ops| :: Number(true, ops, i).Some? ==> Number(false, ops, i).Some?
  {
    hide Number, Together;
    AlignedIff(ops);
    forall i | 0 <= i < |ops| ensures Number(true, ops, i).Some? ==> Number(false, ops, i).Some? {
      assert AheadAfter(ops[..i]);
      NumbersAgree(ops, i);
    }
    forall n | 0 <= n <= |ops| ensures NoneLater(ops[..n]) {
      assert AheadAfter(ops[..n]);
      forall i | 0 <= i < n ensures !Late(ops[..n], i) {
        assert AheadAfter(ops[..i]) && ops[..n][..i] == ops[..i];
        NumbersAgree(ops[..n], i);
      }
    }
  }

  /** The strict queue accepts call `i` if it is an admission. */
  ghost predicate Accepted<I, M>(ops: seq<Op<I, M>>, i: nat)
    requires i < |ops|
  {
    ops[i].Admit? && ops[i].members.Items? ==>
      After(Init<I, M>(true), ops[..i]).CanAdmit(ops[i].id, ops[i].members.items)
  }

  lemma AcceptedTogether<I, M>(ops: seq<Op<I, M>>)
    requires forall i | 0 <= i < |ops| :: Accepted(ops, i)
    ensures forall i | 0 <= i < |ops| :: Together(ops, i)
    ensures forall n | 0 <= n <= |ops| :: NoneLater(ops[..n])
  {
    forall i | 0 <= i < |ops| ensures Together(ops, i) { assert Accepted(ops, i); }
    RelaxedNeverLater(ops);
  }
}
