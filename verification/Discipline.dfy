/** The Together-In-Together-Out discipline on values.

A `State` records everything an observer could know: every group ever admitted (position `s`
of `all` is the group with arrival number `s`, whether it still waits or not), the arrival
numbers still waiting, and the arrival numbers that left, by the way they left. `Step` says
what each call of the package's queue does to that state and what the caller sees. */
module Discipline {
  import opened Lists

  /** A group as a value. `id` is None for a group admitted under the id `None`. */
  datatype Party<I, M> = Party(id: Option<I>, members: seq<M>, marked: set<M>) {
    ghost predicate Valid() {
      members != [] && Distinct(members) && marked <= Elements(members)
    }

    ghost predicate Ready() {
      Elements(members) <= marked
    }

    ghost function Mark(m: M): Party<I, M> {
      this.(marked := marked + {m})
    }

    ghost function MarkWhole(): Party<I, M> {
      this.(marked := Elements(members))
    }
  }

  /** The `members` argument of `admit`: a collection, or a bare string that happens to iterate. */
  datatype Batch<M> = Items(items: seq<M>) | Text(items: seq<M>)

  datatype Op<I, M> =
    | Admit(id: Option<I>, members: Batch<M>)
    | MarkReady(member: M)
    | MarkGroup(id: Option<I>)
    | MarkHeld(seqno: nat, member: M)  // mark_ready on a Group object the caller still holds
    | GroupOf(member: M)
    | Cancel(id: Option<I>)
    | Clear
    | Peek
    | Release
    | ReleaseAll

  /** What the caller sees; groups are named by arrival number, which is their identity. */
  datatype Outcome =
    | Rejected                        // an exception, and nothing has changed
    | Flag(value: bool)
    | Maybe(found: Option<nat>)
    | Many(groups: seq<nat>)

  /** A returned value, or an exception. */
  datatype Result<+T> = Success(value: T) | Failure

  function Seen(r: Result<bool>): Outcome {
    if r.Success? then Flag(r.value) else Rejected
  }

  datatype How = Left | Withdrawn | Flushed  // by release, by cancel, by clear

  datatype State<I, M> = State(
    strict: bool,
    all: seq<Party<I, M>>,
    waiting: seq<nat>,
    released: seq<nat>,
    cancelled: seq<nat>,
    cleared: seq<nat>)
  {
    ghost function ReadySet(): (r: set<nat>) {
      set s: nat | s < |all| && all[s].Ready()
    }

    ghost function WithId(id: Option<I>): set<nat> {
      set s: nat | s < |all| && all[s].id == id
    }

    ghost function WithMember(m: M): set<nat> {
      set s: nat | s < |all| && m in all[s].members
    }

    /** The waiting group with this id. */
    ghost function Find(id: Option<I>): Option<nat> {
      First(waiting, WithId(id))
    }

    /** The waiting group with this member. */
    ghost function Holder(m: M): Option<nat> {
      First(waiting, WithMember(m))
    }

    /** The group that would leave next. */
    ghost function Next(): Option<nat> {
      if !strict then First(waiting, ReadySet())
      else if waiting != [] && waiting[0] in ReadySet() then Some(waiting[0])
      else None
    }

    /** Every group that can leave now, in order: the longest ready prefix of the line
        under strict order, all the ready groups under relaxed order. */
    ghost function Departing(): seq<nat> {
      if strict then Prefix(waiting, ReadySet()) else Keep(waiting, ReadySet())
    }

    ghost function Depart(gone: seq<nat>, how: How): State<I, M> {
      this.(waiting := Drop(waiting, Elements(gone)),
            released := if how.Left? then released + gone else released,
            cancelled := if how.Withdrawn? then cancelled + gone else cancelled,
            cleared := if how.Flushed? then cleared + gone else cleared)
    }

    ghost predicate CanAdmit(id: Option<I>, items: seq<M>) {
      && items != [] && Distinct(items)
      && Find(id).None?
      && forall m | m in items :: Holder(m).None?
    }

    ghost function Enter(id: Option<I>, items: seq<M>): State<I, M> {
      this.(all := all + [Party(id, items, {})], waiting := waiting + [|all|])
    }

    ghost predicate Holds(s: nat, m: M) {
      s < |all| && m in all[s].members
    }

    ghost function Mark(s: nat, m: M): State<I, M>
      requires s < |all|
    {
      this.(all := all[s := all[s].Mark(m)])
    }
  }

  ghost function Init<I, M>(strict: bool): State<I, M> {
    State(strict, [], [], [], [], [])
  }

  /** What the package's queue does (tito/tito.py). */
  ghost function Step<I, M>(st: State<I, M>, op: Op<I, M>): (State<I, M>, Outcome) {
    match op
    case Admit(id, members) =>
      if members.Text? || !st.CanAdmit(id, members.items) then (st, Rejected)
      else (st.Enter(id, members.items), Maybe(Some(|st.all|)))
    case MarkReady(m) =>
      (match st.Holder(m)
       case None => (st, Rejected)
       case Some(s) => HeldStep(st, s, m))
    case MarkGroup(id) =>
      (match st.Find(id)
       case Some(s) =>
         if s < |st.all| then (st.(all := st.all[s := st.all[s].MarkWhole()]), Flag(true)) else (st, Rejected)
       case None => (st, Rejected))
    case MarkHeld(s, m) => HeldStep(st, s, m)
    case GroupOf(m) => (st, Maybe(st.Holder(m)))
    case Cancel(id) =>
      (match st.Find(id)
       case None => (st, Rejected)
       case Some(s) => (st.Depart([s], Withdrawn), Maybe(Some(s))))
    case Clear => (st.Depart(st.waiting, Flushed), Many(st.waiting))
    case Peek => (st, Maybe(st.Next()))
    case Release =>
      (match st.Next()
       case None => (st, Maybe(None))
       case Some(s) => (st.Depart([s], Left), Maybe(Some(s))))
    case ReleaseAll => (st.Depart(st.Departing(), Left), Many(st.Departing()))
  }

  ghost function HeldStep<I, M>(st: State<I, M>, s: nat, m: M): (State<I, M>, Outcome) {
    if !st.Holds(s, m) then (st, Rejected)
    else var st' := st.Mark(s, m); (st', Flag(st'.all[s].Ready()))
  }

  /** What the scan-based queue does (examples/tito_example.py): it takes a bare string for a
      collection of letters, and its `group_of` reads an id of None as "not queued". */
  ghost function ScanStep<I, M>(st: State<I, M>, op: Op<I, M>): (State<I, M>, Outcome) {
    match op
    case Admit(id, members) => Step(st, Admit(id, Items(members.items)))
    case MarkReady(m) => if HeldByNone(st, m) then (st, Rejected) else Step(st, op)
    case GroupOf(m) => if HeldByNone(st, m) then (st, Maybe(None)) else Step(st, op)
    case _ => Step(st, op)
  }

  ghost predicate HeldByNone<I, M>(st: State<I, M>, m: M) {
    var holder := st.Holder(m);
    holder.Some? && holder.value < |st.all| && st.all[holder.value].id.None?
  }

  /** The calls on which the two queues were never meant to agree. */
  ghost predicate Diverges<I, M>(st: State<I, M>, op: Op<I, M>) {
    match op
    case Admit(id, members) => members.Text? && st.CanAdmit(id, members.items)
    case MarkReady(m) => HeldByNone(st, m)
    case GroupOf(m) => HeldByNone(st, m)
    case _ => false
  }

  // ---------- runs ----------

  ghost function After<I, M>(st: State<I, M>, ops: seq<Op<I, M>>): State<I, M> {
    if ops == [] then st else Step(After(st, ops[..|ops| - 1]), ops[|ops| - 1]).0
  }

  ghost function Outcomes<I, M>(st: State<I, M>, ops: seq<Op<I, M>>): seq<Outcome> {
    if ops == [] then [] else
      var front := ops[..|ops| - 1];
      Outcomes(st, front) + [Step(After(st, front), ops[|ops| - 1]).1]
  }

  ghost function ScanAfter<I, M>(st: State<I, M>, ops: seq<Op<I, M>>): State<I, M> {
    if ops == [] then st else ScanStep(ScanAfter(st, ops[..|ops| - 1]), ops[|ops| - 1]).0
  }

  ghost function ScanOutcomes<I, M>(st: State<I, M>, ops: seq<Op<I, M>>): seq<Outcome> {
    if ops == [] then [] else
      var front := ops[..|ops| - 1];
      ScanOutcomes(st, front) + [ScanStep(ScanAfter(st, front), ops[|ops| - 1]).1]
  }

  ghost predicate RunDiverges<I, M>(st: State<I, M>, ops: seq<Op<I, M>>) {
    exists i :: 0 <= i < |ops| && Diverges(After(st, ops[..i]), ops[i])
  }

  // ---------- the invariant ----------

  ghost predicate WellFormed<I, M>(st: State<I, M>) {
    && Increasing(st.waiting)
    && (forall s | s in st.waiting :: s < |st.all|)
    && (forall s: nat | s < |st.all| :: st.all[s].Valid())
    && Disjoint(st)
    && Conserved(st)
    && (forall s | s in st.released :: s in st.ReadySet())
    && (st.strict ==> InLine(st))
  }

  /** No id and no member is in the line twice. */
  ghost predicate Disjoint<I, M>(st: State<I, M>) {
    forall s, t | s in st.waiting && t in st.waiting && s < |st.all| && t < |st.all| && s != t ::
      st.all[s].id != st.all[t].id && Elements(st.all[s].members) !! Elements(st.all[t].members)
  }

  /** Every admitted group is in exactly one place, once. */
  ghost predicate Conserved<I, M>(st: State<I, M>) {
    forall s: nat :: Places(st, s) == if s < |st.all| then 1 else 0
  }

  ghost function Places<I, M>(st: State<I, M>, s: nat): nat {
    multiset(st.waiting)[s] + multiset(st.released)[s] + multiset(st.cancelled)[s] + multiset(st.cleared)[s]
  }

  /** Released groups left in arrival order, ahead of everything that waits. */
  ghost predicate InLine<I, M>(st: State<I, M>) {
    Increasing(st.released) && forall s, t | s in st.released && t in st.waiting :: s < t
  }

  lemma EnterKeeps<I, M>(st: State<I, M>, id: Option<I>, items: seq<M>)
    requires WellFormed(st) && st.CanAdmit(id, items)
    ensures WellFormed(st.Enter(id, items))
  {
    var st' := st.Enter(id, items);
    assert forall i | 0 <= i < |st.waiting| :: st.waiting[i] in st.waiting;
    assert forall s | s in st.ReadySet() :: s in st'.ReadySet();
    ReleasedAreAdmitted(st);
    AdmitConserves(st, st');
    EnterDisjoint(st, id, items);
  }

  lemma EnterDisjoint<I, M>(st: State<I, M>, id: Option<I>, items: seq<M>)
    requires Disjoint(st) && st.CanAdmit(id, items)
    requires forall s | s in st.waiting :: s < |st.all|
    ensures Disjoint(st.Enter(id, items))
  {
    var st' := st.Enter(id, items);
    forall s | s in st.waiting
      ensures st.all[s].id != id && Elements(st.all[s].members) !! Elements(items)
    {
      assert s !in st.WithId(id);
      assert forall m | m in items :: s !in st.WithMember(m);
    }
    assert forall s | s in st'.waiting :: s in st.waiting || s == |st.all|;
    assert forall s | s in st.waiting :: st'.all[s] == st.all[s];
  }

  lemma AdmitConserves<I, M>(st: State<I, M>, st': State<I, M>)
    requires Conserved(st) && |st'.all| == |st.all| + 1
    requires st'.waiting == st.waiting + [|st.all|]
    requires st'.released == st.released && st'.cancelled == st.cancelled && st'.cleared == st.cleared
    ensures Conserved(st')
  {
    forall s: nat ensures Places(st', s) == if s < |st'.all| then 1 else 0 {
      assert Places(st, s) == if s < |st.all| then 1 else 0;
      assert Places(st', s) == Places(st, s) + if s == |st.all| then 1 else 0;
    }
  }

  lemma ReleasedAreAdmitted<I, M>(st: State<I, M>)
    requires Conserved(st)
    ensures forall s | s in st.released :: s < |st.all|
  {
    forall s | s in st.released ensures s < |st.all| {
      assert Places(st, s) >= multiset(st.released)[s] > 0;
    }
  }

  /** Marking more members of one group keeps everything. */
  lemma RemarkKeeps<I, M>(st: State<I, M>, s: nat, marked: set<M>)
    requires WellFormed(st) && s < |st.all|
    requires st.all[s].marked <= marked <= Elements(st.all[s].members)
    ensures WellFormed(st.(all := st.all[s := st.all[s].(marked := marked)]))
  {
    var st' := st.(all := st.all[s := st.all[s].(marked := marked)]);
    assert forall t: nat :: Places(st, t) == Places(st', t);
    assert forall t | t in st.released :: t in st.ReadySet() && t in st'.ReadySet();
    assert Disjoint(st') by {
      assert forall t: nat | t < |st.all| :: st'.all[t].id == st.all[t].id && st'.all[t].members == st.all[t].members;
    }
  }

  lemma DepartKeeps<I, M>(st: State<I, M>, gone: seq<nat>, how: How)
    requires WellFormed(st) && Increasing(gone)
    requires forall s | s in gone :: s in st.waiting
    requires how.Left? ==> forall s | s in gone :: s in st.ReadySet()
    requires how.Left? && st.strict ==> gone <= st.waiting
    ensures WellFormed(st.Depart(gone, how))
  {
    var st' := st.Depart(gone, how);
    DropIncreasing(st.waiting, Elements(gone));
    DepartConserves(st, gone, how);
    assert st'.ReadySet() == st.ReadySet();
    if st.strict {
      DepartInLine(st, gone, how);
    }
  }

  lemma DepartConserves<I, M>(st: State<I, M>, gone: seq<nat>, how: How)
    requires Increasing(st.waiting) && Conserved(st) && Increasing(gone)
    requires forall s | s in gone :: s in st.waiting
    ensures Conserved(st.Depart(gone, how))
  {
    var st' := st.Depart(gone, how);
    DropSplits(st.waiting, gone);
    forall s: nat ensures Places(st', s) == if s < |st.all| then 1 else 0 {
      assert Places(st, s) == if s < |st.all| then 1 else 0;
      assert multiset(st.waiting)[s] == multiset(st'.waiting)[s] + multiset(gone)[s];
    }
  }

  lemma DepartInLine<I, M>(st: State<I, M>, gone: seq<nat>, how: How)
    requires InLine(st) && Increasing(st.waiting) && Increasing(gone)
    requires forall s | s in gone :: s in st.waiting
    requires how.Left? ==> gone <= st.waiting
    ensures InLine(st.Depart(gone, how))
  {
    var st' := st.Depart(gone, how);
    if how.Left? {
      assert forall i | 0 <= i < |gone| :: gone[i] in gone;
      assert forall i | 0 <= i < |st.released| :: st.released[i] in st.released;
      forall s, t | s in gone && t in st'.waiting ensures s < t {
        var i :| 0 <= i < |gone| && gone[i] == s;
        var j :| 0 <= j < |st.waiting| && st.waiting[j] == t;
        assert forall k | 0 <= k < |gone| :: gone[k] == st.waiting[k];
        assert j >= |gone|;
      }
    }
  }
}
