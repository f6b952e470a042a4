/** The readiness index of the relaxed policy (tito/tito.py), on values.

A lazily cleaned min-heap of arrival numbers sits beside the table of the ones that are live.
The heap is seen here as the set of numbers it holds; `BinaryHeap` supplies the array and
`Tito` ties the two. `notices`, `pushes`, `pops`, `rebuilt` and `retired` only record work. */
module ReadyIndex {
  import opened Lists
  import opened Discipline
  import opened Guarantees

  datatype Index<I, M> = Index(
    core: State<I, M>,
    live: set<nat>,       // keys of _ready_groups
    heap: set<nat>,       // contents of _ready_heap
    notices: seq<nat>,    // every readiness callback ever fired, in order
    pushes: seq<nat>,     // every number ever pushed, in order
    pops: nat,            // stale entries discarded by peek
    rebuilt: nat,         // entries written by compaction
    retired: nat)         // ready groups removed one at a time

  ghost function InitIx<I, M>(strict: bool): Index<I, M> {
    Index(Init(strict), {}, {}, [], [], 0, 0, 0)
  }

  /** _note_ready: the callback a completed group fires. Every call leaves a notice, whether or
      not the test for a number already in the table then turns it away. */
  ghost function Note<I, M>(ix: Index<I, M>, s: nat): Index<I, M> {
    var ix' := ix.(notices := ix.notices + [s]);
    if s in ix.live then ix'
    else ix'.(live := ix.live + {s}, heap := ix.heap + {s}, pushes := ix.pushes + [s])
  }

  /** Whether the group carries the queue's callback. */
  ghost predicate Linked<I, M>(ix: Index<I, M>, s: nat) {
    !ix.core.strict && s in ix.core.waiting
  }

  /** Group.mark_ready, callback included. */
  ghost function HeldIx<I, M>(ix: Index<I, M>, s: nat, m: M): (Index<I, M>, Outcome) {
    if !ix.core.Holds(s, m) then (ix, Rejected)
    else if m in ix.core.all[s].marked then (ix, Flag(ix.core.all[s].Ready()))
    else
      var ix' := ix.(core := ix.core.Mark(s, m));
      var full := ix'.core.all[s].Ready();
      (if full && Linked(ix, s) then Note(ix', s) else ix', Flag(full))
  }

  /** The loop of mark_group_ready. */
  ghost function EachIx<I, M>(ix: Index<I, M>, s: nat, ms: seq<M>): Index<I, M>
    decreases |ms|
  {
    if ms == [] then ix else EachIx(HeldIx(ix, s, ms[0]).0, s, ms[1..])
  }

  /** _compact_ready_heap */
  ghost function Compact<I, M>(ix: Index<I, M>): Index<I, M> {
    if |ix.heap| <= 2 * |ix.live| + 8 then ix
    else ix.(heap := ix.live, rebuilt := ix.rebuilt + |ix.live|)
  }

  /** _remove */
  ghost function RemoveIx<I, M>(ix: Index<I, M>, s: nat, how: How): Index<I, M> {
    var ix' := ix.(core := ix.core.Depart([s], how));
    if s in ix.live then Compact(ix'.(live := ix.live - {s}, retired := ix.retired + 1)) else ix'
  }

  /** The lazy deletion loop of peek. */
  ghost function Settle<I, M>(ix: Index<I, M>): Index<I, M>
    decreases |ix.heap|
  {
    if ix.heap == {} || Min(ix.heap) in ix.live then ix
    else Settle(ix.(heap := ix.heap - {Min(ix.heap)}, pops := ix.pops + 1))
  }

  ghost function PeekIx<I, M>(ix: Index<I, M>): (Index<I, M>, Option<nat>) {
    if ix.core.strict then
      (ix, if ix.core.waiting != [] && ix.core.waiting[0] in ix.core.ReadySet()
           then Some(ix.core.waiting[0]) else None)
    else
      var ix' := Settle(ix);
      (ix', if ix'.heap == {} then None else Some(Min(ix'.heap)))
  }

  ghost function ReleaseIx<I, M>(ix: Index<I, M>): (Index<I, M>, Option<nat>) {
    var (ix', next) := PeekIx(ix);
    if next.None? then (ix', None) else (RemoveIx(ix', next.value, Left), next)
  }

  /** The loop of release_all, for at most `n` turns. */
  ghost function DrainIx<I, M>(ix: Index<I, M>, n: nat): (Index<I, M>, seq<nat>)
    decreases n
  {
    if n == 0 then (ix, [])
    else
      var (ix', next) := ReleaseIx(ix);
      if next.None? then (ix', [])
      else var (last, rest) := DrainIx(ix', n - 1); (last, [next.value] + rest)
  }

  ghost function ClearIx<I, M>(ix: Index<I, M>): Index<I, M> {
    ix.(core := ix.core.Depart(ix.core.waiting, Flushed), live := {}, heap := {})
  }

  ghost function IndexStep<I, M>(ix: Index<I, M>, op: Op<I, M>): (Index<I, M>, Outcome) {
    match op
    case Admit(_, _) => var (st, out) := Step(ix.core, op); (ix.(core := st), out)
    case MarkReady(m) =>
      (match ix.core.Holder(m)
       case None => (ix, Rejected)
       case Some(s) => HeldIx(ix, s, m))
    case MarkGroup(id) =>
      (match ix.core.Find(id)
       case Some(s) => if s < |ix.core.all| then (EachIx(ix, s, ix.core.all[s].members), Flag(true)) else (ix, Rejected)
       case None => (ix, Rejected))
    case MarkHeld(s, m) => HeldIx(ix, s, m)
    case GroupOf(m) => (ix, Maybe(ix.core.Holder(m)))
    case Cancel(id) =>
      (match ix.core.Find(id)
       case None => (ix, Rejected)
       case Some(s) => (RemoveIx(ix, s, Withdrawn), Maybe(Some(s))))
    case Clear => (ClearIx(ix), Many(ix.core.waiting))
    case Peek => var (ix', next) := PeekIx(ix); (ix', Maybe(next))
    case Release => var (ix', next) := ReleaseIx(ix); (ix', Maybe(next))
    case ReleaseAll => var (ix', gone) := DrainIx(ix, |ix.core.waiting| + 1); (ix', Many(gone))
  }

  ghost function IxAfter<I, M>(ix: Index<I, M>, ops: seq<Op<I, M>>): Index<I, M> {
    if ops == [] then ix else IndexStep(IxAfter(ix, ops[..|ops| - 1]), ops[|ops| - 1]).0
  }

  ghost function IxOutcomes<I, M>(ix: Index<I, M>, ops: seq<Op<I, M>>): seq<Outcome> {
    if ops == [] then [] else
      var front := ops[..|ops| - 1];
      IxOutcomes(ix, front) + [IndexStep(IxAfter(ix, front), ops[|ops| - 1]).1]
  }

  // ---------- the invariant ----------

  ghost predicate Inv<I, M>(ix: Index<I, M>) {
    WellFormed(ix.core) && Exact(ix) && Paid(ix)
  }

  /** The index is exactly the ready waiting groups; the heap holds them, and besides them only
      numbers that were pushed once and whose group has left for good. Every callback fired was
      for a number not yet in the table, and so led to a push. */
  ghost predicate Exact<I, M>(ix: Index<I, M>) {
    && (ix.core.strict ==> ix.live == {} && ix.heap == {} && ix.pushes == [])
    && (!ix.core.strict ==> forall s :: s in ix.live <==> s in ix.core.waiting && s in ix.core.ReadySet())
    && ix.live <= ix.heap <= Elements(ix.pushes)
    && Distinct(ix.pushes)
    && ix.notices == ix.pushes
    && Elements(ix.pushes) <= ix.core.ReadySet()
  }

  /** The heap is never much larger than the index, and all the work of keeping it so is paid
      for by ready groups that left. */
  ghost predicate Paid<I, M>(ix: Index<I, M>) {
    && |ix.heap| <= 2 * |ix.live| + 8
    && ix.pops + ix.rebuilt + |ix.heap| <= ix.retired + |ix.live|
    && ix.retired + |ix.live| <= |ix.pushes|
    && ix.retired <= |ix.core.released| + |ix.core.cancelled|
  }

  // ---------- every operation keeps it and answers like the discipline ----------

  lemma HeldRefines<I, M>(ix: Index<I, M>, s: nat, m: M)
    requires Inv(ix)
    ensures Inv(HeldIx(ix, s, m).0)
    ensures HeldIx(ix, s, m).0.core == HeldStep(ix.core, s, m).0
    ensures HeldIx(ix, s, m).1 == HeldStep(ix.core, s, m).1
  {
    HeldKeeps(ix.core, s, m);
    if ix.core.Holds(s, m) {
      var was := ix.core.all[s];
      if m in was.marked {
        assert was.Mark(m) == was && ix.core.Mark(s, m) == ix.core;
      } else {
        assert m in Elements(was.members) && s !in ix.core.ReadySet();
        MarkKeepsIndex(ix, s, m);
      }
    }
  }

  lemma MarkKeepsIndex<I, M>(ix: Index<I, M>, s: nat, m: M)
    requires Exact(ix) && Paid(ix) && ix.core.Holds(s, m) && s !in ix.core.ReadySet()
    ensures Exact(HeldIx(ix, s, m).0) && Paid(HeldIx(ix, s, m).0)
  {
    var ix' := ix.(core := ix.core.Mark(s, m));
    MarkReadySet(ix.core, s, m);
    assert s !in Elements(ix.pushes) && s !in ix.live;
    if Linked(ix, s) && ix'.core.all[s].Ready() {
      NotePaid(ix', s);
      PushDistinct(ix.pushes, s);
    }
  }

  /** This mark is the one that completes a group waiting in a relaxed queue. */
  ghost predicate Completing<I, M>(ix: Index<I, M>, s: nat, m: M) {
    ix.core.Holds(s, m) && m !in ix.core.all[s].marked && Linked(ix, s) && ix.core.Mark(s, m).all[s].Ready()
  }

  /** A mark fires the callback exactly when it completes a group that waits in a relaxed queue;
      then the number is new to the table and to the heap, and is pushed once. Every other mark
      leaves the heap and the table alone. */
  lemma NoticeIsNews<I, M>(ix: Index<I, M>, s: nat, m: M)
    requires Inv(ix)
    ensures var ix' := HeldIx(ix, s, m).0;
      if Completing(ix, s, m) then
        && s !in ix.live && s !in ix.heap
        && ix'.notices == ix.notices + [s] && ix'.pushes == ix.pushes + [s]
        && ix'.live == ix.live + {s} && ix'.heap == ix.heap + {s}
      else ix'.(core := ix.core) == ix
  {
    hide WellFormed, Paid;
    if Completing(ix, s, m) {
      MemberOf(ix, s, m);
      assert s !in ix.core.ReadySet();
    }
  }

  lemma MemberOf<I, M>(ix: Index<I, M>, s: nat, m: M)
    requires ix.core.Holds(s, m)
    ensures m in Elements(ix.core.all[s].members)
  {
  }

  lemma NotePaid<I, M>(ix: Index<I, M>, s: nat)
    requires Paid(ix) && s !in ix.live
    ensures Paid(Note(ix, s))
  {
    assert |ix.live + {s}| == |ix.live| + 1;
    assert |ix.heap + {s}| <= |ix.heap| + 1;
  }

  lemma PushDistinct(pushes: seq<nat>, s: nat)
    requires Distinct(pushes) && s !in pushes
    ensures Distinct(pushes + [s]) && Elements(pushes + [s]) == Elements(pushes) + {s}
  {
    assert forall i | 0 <= i < |pushes| :: pushes[i] in pushes;
  }

  lemma UnreadyNotHeaped<I, M>(ix: Index<I, M>, s: nat)
    requires Exact(ix)
    ensures s !in ix.core.ReadySet() ==> s !in ix.heap
  {
  }

  lemma MarkReadySet<I, M>(st: State<I, M>, s: nat, m: M)
    requires s < |st.all|
    ensures forall t: nat | t != s :: t in st.Mark(s, m).ReadySet() <==> t in st.ReadySet()
    ensures s in st.Mark(s, m).ReadySet() <==> st.all[s].Mark(m).Ready()
  {
    var st' := st.Mark(s, m);
    assert forall t: nat | t < |st'.all| && t != s :: st'.all[t] == st.all[t];
  }

  lemma {:induction false} EachRefines<I, M>(ix: Index<I, M>, s: nat, ms: seq<M>)
    requires Inv(ix) && s < |ix.core.all|
    requires forall m | m in ms :: m in ix.core.all[s].members
    ensures Inv(EachIx(ix, s, ms))
    ensures EachIx(ix, s, ms).core ==
      var p := ix.core.all[s]; ix.core.(all := ix.core.all[s := p.(marked := p.marked + Elements(ms))])
    decreases |ms|
  {
    hide WellFormed, Exact, Paid, HeldIx;
    var p := ix.core.all[s];
    if ms == [] {
      assert p.(marked := p.marked + Elements(ms)) == p;
    } else {
      HeldRefines(ix, s, ms[0]);
      var ix' := HeldIx(ix, s, ms[0]).0;
      assert ix'.core.all[s] == p.Mark(ms[0]);
      EachRefines(ix', s, ms[1..]);
      assert p.marked + {ms[0]} + Elements(ms[1..]) == p.marked + Elements(ms);
    }
  }

  lemma RemoveExact<I, M>(ix: Index<I, M>, s: nat, how: How)
    requires Exact(ix)
    ensures Exact(RemoveIx(ix, s, how))
  {
    var core' := ix.core.Depart([s], how);
    assert core'.ReadySet() == ix.core.ReadySet();
    assert forall t :: t in core'.waiting <==> t in ix.core.waiting && t != s;
  }

  lemma RemovePaid<I, M>(ix: Index<I, M>, s: nat, how: How)
    requires Paid(ix) && !how.Flushed?
    ensures Paid(RemoveIx(ix, s, how))
  {
    if s in ix.live {
      assert |ix.live - {s}| == |ix.live| - 1;
    }
  }

  lemma RemoveRefines<I, M>(ix: Index<I, M>, s: nat, how: How)
    requires Inv(ix) && s in ix.core.waiting && !how.Flushed?
    requires how.Left? ==> s in ix.core.ReadySet() && (ix.core.strict ==> s == ix.core.waiting[0])
    ensures Inv(RemoveIx(ix, s, how))
    ensures RemoveIx(ix, s, how).core == ix.core.Depart([s], how)
  {
    DepartKeeps(ix.core, [s], how);
    hide WellFormed, Exact, Paid;
    RemoveExact(ix, s, how);
    RemovePaid(ix, s, how);
  }

  lemma PopKeeps<I, M>(ix: Index<I, M>)
    requires Exact(ix) && Paid(ix) && ix.heap != {} && Min(ix.heap) !in ix.live
    ensures var ix' := ix.(heap := ix.heap - {Min(ix.heap)}, pops := ix.pops + 1);
      Exact(ix') && Paid(ix') && |ix'.heap| < |ix.heap|
  {
    assert |ix.heap - {Min(ix.heap)}| == |ix.heap| - 1;
  }

  /** Compaction does nothing while the heap has at most twice as many entries as the table plus
      eight. Beyond that it leaves exactly the live ones, and is charged for each of them: it is
      charged for what is in the heap afterwards whenever the heap has changed. */
  lemma CompactExact<I, M>(ix: Index<I, M>)
    requires ix.live <= ix.heap
    ensures |ix.heap| <= 2 * |ix.live| + 8 ==> Compact(ix) == ix
    ensures |ix.heap| > 2 * |ix.live| + 8 ==>
      Compact(ix) == ix.(heap := ix.live, rebuilt := ix.rebuilt + |ix.live|) && ix.live != ix.heap
    ensures Compact(ix).rebuilt == ix.rebuilt + (if Compact(ix).heap != ix.heap then |Compact(ix).heap| else 0)
    ensures |Compact(ix).heap| <= 2 * |Compact(ix).live| + 8
  {
  }

  /** Some live number is no younger. */
  ghost predicate Covered(live: set<nat>, s: nat) {
    exists l :: l in live && l <= s
  }

  lemma LeastCovers(live: set<nat>, heap: set<nat>)
    requires live <= heap && heap != {}
    ensures Min(heap) in live ==> forall s | s in heap :: Covered(live, s)
    ensures Min(heap) !in live ==> !Covered(live, Min(heap))
  {
  }

  /** The lazy cleaning takes out exactly the entries older than every live one, which are stale,
      and is charged for each of them. */
  lemma {:induction false} SettleExact<I, M>(ix: Index<I, M>)
    requires ix.live <= ix.heap
    ensures var ix' := Settle(ix);
      && (forall s :: s in ix'.heap <==> s in ix.heap && Covered(ix.live, s))
      && ix'.pops == ix.pops + (|ix.heap| - |ix'.heap|)
      && ix' == ix.(heap := ix'.heap, pops := ix'.pops)
    decreases |ix.heap|
  {
    hide Covered;
    if ix.heap != {} {
      LeastCovers(ix.live, ix.heap);
      var least := Min(ix.heap);
      if least !in ix.live {
        assert |ix.heap - {least}| == |ix.heap| - 1;
        SettleExact(ix.(heap := ix.heap - {least}, pops := ix.pops + 1));
      }
    }
  }

  lemma {:induction false} SettleKeeps<I, M>(ix: Index<I, M>)
    requires Inv(ix)
    ensures var ix' := Settle(ix);
      && Inv(ix')
      && ix'.core == ix.core && ix'.live == ix.live && ix'.retired == ix.retired
      && (ix'.heap != {} ==> Min(ix'.heap) in ix.live)
    decreases |ix.heap|
  {
    hide WellFormed, Exact, Paid;
    if ix.heap != {} && Min(ix.heap) !in ix.live {
      PopKeeps(ix);
      SettleKeeps(ix.(heap := ix.heap - {Min(ix.heap)}, pops := ix.pops + 1));
    }
  }

  lemma PeekRefines<I, M>(ix: Index<I, M>)
    requires Inv(ix)
    ensures Inv(PeekIx(ix).0) && PeekIx(ix).0.core == ix.core
    ensures PeekIx(ix).1 == ix.core.Next()
  {
    if !ix.core.strict {
      SettleKeeps(ix);
    }
  }

  lemma ReleaseRefines<I, M>(ix: Index<I, M>)
    requires Inv(ix)
    ensures Inv(ReleaseIx(ix).0)
    ensures ReleaseIx(ix).1 == ix.core.Next()
    ensures ReleaseIx(ix).0.core ==
      match ix.core.Next() case None => ix.core case Some(s) => ix.core.Depart([s], Left)
  {
    hide WellFormed, Exact, Paid;
    PeekRefines(ix);
    if ix.core.Next().Some? {
      NextDeparts(ix.core, ix.core.Next().value);
      RemoveRefines(PeekIx(ix).0, ix.core.Next().value, Left);
    }
  }

  lemma {:induction false} DrainRefines<I, M>(ix: Index<I, M>, n: nat)
    requires Inv(ix) && |ix.core.waiting| < n
    ensures Inv(DrainIx(ix, n).0)
    ensures DrainIx(ix, n).0.core == ix.core.Depart(ix.core.Departing(), Left)
    ensures DrainIx(ix, n).1 == ix.core.Departing()
    decreases n
  {
    hide WellFormed, Exact, Paid, ReleaseIx, Keep, Prefix, First, Drop;
    ReleaseRefines(ix);
    DrainStep(ix.core);
    if ix.core.Next().None? {
      DepartNobody(ix.core, Left);
    } else {
      NextDeparts(ix.core, ix.core.Next().value);
      ReleaseShrinks(ix.core, ix.core.Next().value);
      DrainRefines(ReleaseIx(ix).0, n - 1);
    }
  }

  /** One turn of release_all. */
  lemma ReleaseTurn<I, M>(ix: Index<I, M>)
    requires Inv(ix)
    ensures var (ix', next) := ReleaseIx(ix);
      var n := |ix.core.waiting| + 1;
      && (next.None? ==> DrainIx(ix, n) == (ix', []))
      && (next.Some? ==>
            && |ix'.core.waiting| == |ix.core.waiting| - 1
            && DrainIx(ix, n) == (DrainIx(ix', n - 1).0, [next.value] + DrainIx(ix', n - 1).1))
  {
    ReleaseRefines(ix);
    if ix.core.Next().Some? {
      NextDeparts(ix.core, ix.core.Next().value);
      ReleaseShrinks(ix.core, ix.core.Next().value);
    }
  }

  lemma ClearRefines<I, M>(ix: Index<I, M>)
    requires Inv(ix)
    ensures Inv(ClearIx(ix)) && ClearIx(ix).core.waiting == [] && ClearIx(ix).core.all == ix.core.all
  {
    DepartKeeps(ix.core, ix.core.waiting, Flushed);
    var core' := ix.core.Depart(ix.core.waiting, Flushed);
    assert core'.ReadySet() == ix.core.ReadySet();
    SubsetSize(ix.live, ix.heap);
    DropAll(ix.core.waiting, Elements(ix.core.waiting));
  }

  lemma AdmitRefines<I, M>(ix: Index<I, M>, id: Option<I>, items: seq<M>)
    requires Inv(ix) && ix.core.CanAdmit(id, items)
    ensures Inv(ix.(core := ix.core.Enter(id, items)))
  {
    EnterKeeps(ix.core, id, items);
    var core' := ix.core.Enter(id, items);
    assert forall s: nat | s < |ix.core.all| :: core'.all[s] == ix.core.all[s];
    assert items[0] in Elements(items);
    assert forall s: nat :: s in core'.ReadySet() <==> s in ix.core.ReadySet();
  }

  /** Every operation of the indexed queue keeps the invariant, and changes the line and
      answers exactly as the discipline says. */
  lemma StepRefines<I, M>(ix: Index<I, M>, op: Op<I, M>)
    requires Inv(ix)
    ensures Inv(IndexStep(ix, op).0)
    ensures (IndexStep(ix, op).0.core, IndexStep(ix, op).1) == Step(ix.core, op)
  {
    hide WellFormed, Exact, Paid;
    match op
    case Admit(id, members) =>
      if members.Items? && ix.core.CanAdmit(id, members.items) { AdmitRefines(ix, id, members.items); }
    case MarkReady(m) =>
      if ix.core.Holder(m).Some? { HeldRefines(ix, ix.core.Holder(m).value, m); }
    case MarkGroup(id) =>
      if ix.core.Find(id).Some? { MarkGroupRefines(ix, ix.core.Find(id).value); }
    case MarkHeld(s, m) => HeldRefines(ix, s, m);
    case GroupOf(m) =>
    case Cancel(id) =>
      if ix.core.Find(id).Some? { RemoveRefines(ix, ix.core.Find(id).value, Withdrawn); }
    case Clear => ClearRefines(ix);
    case Peek => PeekRefines(ix);
    case Release => ReleaseRefines(ix);
    case ReleaseAll => DrainRefines(ix, |ix.core.waiting| + 1);
  }

  lemma MarkGroupRefines<I, M>(ix: Index<I, M>, s: nat)
    requires Inv(ix) && s < |ix.core.all|
    ensures var p := ix.core.all[s];
      var ix' := EachIx(ix, s, p.members);
      Inv(ix') && ix'.core == ix.core.(all := ix.core.all[s := p.MarkWhole()])
  {
    var p := ix.core.all[s];
    EachRefines(ix, s, p.members);
    assert p.Valid() && p.marked + Elements(p.members) == Elements(p.members);
  }

  /** What each call that takes nothing or one group out does to the heap, and what it is charged. */
  lemma ChargedExactly<I, M>(ix: Index<I, M>, op: Op<I, M>)
    requires Inv(ix)
    ensures var ix' := IndexStep(ix, op).0;
      match op
      case Admit(_, _) => ix' == ix.(core := ix'.core)
      case GroupOf(_) => ix' == ix
      case Clear => ix' == ix.(core := ix'.core, live := {}, heap := {})
      case Peek =>
        && ix' == ix.(heap := ix'.heap, pops := ix'.pops)
        && ix'.pops == ix.pops + (|ix.heap| - |ix'.heap|)
        && (ix.core.strict ==> ix'.heap == ix.heap)
        && (!ix.core.strict ==> forall s :: s in ix'.heap <==> s in ix.heap && Covered(ix.live, s))
      case Cancel(id) =>
        (match ix.core.Find(id)
         case None => ix' == ix
         case Some(s) => if s in ix.live then Retired(ix, s, ix') else ix' == ix.(core := ix'.core))
      case _ => true
  {
    hide WellFormed, Paid, First, Settle, Drop, Covered;
    match op
    case Peek => SettleExact(ix);
    case Cancel(id) =>
      if ix.core.Find(id).Some? { RetiredIs(ix, ix.core.Find(id).value, Withdrawn); }
    case _ =>
  }

  /** Number `s` has left the table, and the heap only if that made it too large for the rest. */
  ghost predicate Retired<I, M>(ix: Index<I, M>, s: nat, ix': Index<I, M>) {
    && ix'.live == ix.live - {s} && ix'.retired == ix.retired + 1
    && ix'.notices == ix.notices && ix'.pushes == ix.pushes && ix'.pops == ix.pops
    && (if |ix.heap| <= 2 * |ix'.live| + 8 then ix'.heap == ix.heap && ix'.rebuilt == ix.rebuilt
        else ix'.heap == ix'.live && ix'.rebuilt == ix.rebuilt + |ix'.live|)
  }

  lemma RetiredIs<I, M>(ix: Index<I, M>, s: nat, how: How)
    ensures s in ix.live ==> Retired(ix, s, RemoveIx(ix, s, how))
    ensures s !in ix.live ==> RemoveIx(ix, s, how) == ix.(core := ix.core.Depart([s], how))
  {
    hide Drop;
  }

  // ---------- whole runs ----------

  /** Refinement over every run: from empty queues, under either policy, the indexed queue
      gives the answers of the discipline and holds its invariant at every point. */
  lemma {:induction false} RunRefines<I, M>(strict: bool, ops: seq<Op<I, M>>)
    ensures Inv(IxAfter(InitIx<I, M>(strict), ops))
    ensures IxAfter(InitIx<I, M>(strict), ops).core == After(Init<I, M>(strict), ops)
    ensures IxOutcomes(InitIx<I, M>(strict), ops) == Outcomes(Init<I, M>(strict), ops)
  {
    if ops != [] {
      var front := ops[..|ops| - 1];
      RunRefines<I, M>(strict, front);
      StepRefines(IxAfter(InitIx<I, M>(strict), front), ops[|ops| - 1]);
    }
  }

  /** The heap-indexed queue and the linear-scan queue give a caller the same answers through a
      whole run exactly when the run never admits a bare string and never looks up a member
      of a group admitted as None. */
  lemma IndexedMatchesScan<I, M>(strict: bool, ops: seq<Op<I, M>>)
    ensures IxOutcomes(InitIx<I, M>(strict), ops) == ScanOutcomes(Init<I, M>(strict), ops) <==>
            !RunDiverges(Init<I, M>(strict), ops)
  {
    RunRefines<I, M>(strict, ops);
    RunsAgree(Init<I, M>(strict), ops);
  }

  /** Index exactness and the heap bound, in every reachable state. */
  lemma IndexExact<I, M>(strict: bool, ops: seq<Op<I, M>>)
    ensures var ix := IxAfter(InitIx<I, M>(strict), ops);
      && (strict ==> ix.live == {} && ix.heap == {})
      && (!strict ==> forall s :: s in ix.live <==> s in ix.core.waiting && s in ix.core.ReadySet())
      && ix.live <= ix.heap
      && |ix.heap| <= 2 * |ix.live| + 8
  {
    RunRefines<I, M>(strict, ops);
    RunEvolves(Init<I, M>(strict), ops);
  }

  /** Amortised cost: over any run, the stale entries popped, the entries rewritten by
      compaction and the stale entries still in the heap are together at most the ready groups
      removed one at a time, and those are at most the groups admitted. */
  lemma AmortisedCost<I, M>(strict: bool, ops: seq<Op<I, M>>)
    ensures var ix := IxAfter(InitIx<I, M>(strict), ops);
      && ix.pops + ix.rebuilt + (|ix.heap| - |ix.live|) <= ix.retired
      && ix.retired <= |ix.core.released| + |ix.core.cancelled|
      && ix.retired + |ix.live| <= |ix.pushes| <= |ix.core.all|
  {
    RunRefines<I, M>(strict, ops);
    var ix := IxAfter(InitIx<I, M>(strict), ops);
    assert forall s | s in ix.pushes :: s in Elements(ix.pushes) && s in ix.core.ReadySet();
    BoundedDistinct(ix.pushes, |ix.core.all|);
  }

  lemma {:induction false} EachNotes<I, M>(ix: Index<I, M>, s: nat, ms: seq<M>)
    ensures var ix' := EachIx(ix, s, ms);
      && ix.pushes <= ix'.pushes && ix.live <= ix'.live
      && forall t | t in ix'.pushes :: t in ix.pushes || t in ix'.live
    decreases |ms|
  {
    if ms != [] { EachNotes(HeldIx(ix, s, ms[0]).0, s, ms[1..]); }
  }

  lemma {:induction false} SettlePushes<I, M>(ix: Index<I, M>)
    ensures Settle(ix).pushes == ix.pushes
    decreases |ix.heap|
  {
    if ix.heap != {} && Min(ix.heap) !in ix.live {
      SettlePushes(ix.(heap := ix.heap - {Min(ix.heap)}, pops := ix.pops + 1));
    }
  }

  lemma {:induction false} DrainPushes<I, M>(ix: Index<I, M>, n: nat)
    ensures DrainIx(ix, n).0.pushes == ix.pushes
    decreases n
  {
    hide Settle, State.Depart, State.ReadySet;
    if n > 0 {
      SettlePushes(ix);
      if ReleaseIx(ix).1.Some? { DrainPushes(ReleaseIx(ix).0, n - 1); }
    }
  }

  /** A callback is never forgotten, and a new one leaves its group in the index. */
  lemma StepNotes<I, M>(ix: Index<I, M>, op: Op<I, M>)
    ensures var ix' := IndexStep(ix, op).0;
      && ix.pushes <= ix'.pushes
      && forall t | t in ix'.pushes :: t in ix.pushes || t in ix'.live
  {
    hide EachIx, DrainIx, Settle, First, Step, State.Depart, State.ReadySet;
    match op
    case MarkGroup(id) =>
      if ix.core.Find(id).Some? && ix.core.Find(id).value < |ix.core.all| {
        EachNotes(ix, ix.core.Find(id).value, ix.core.all[ix.core.Find(id).value].members);
      }
    case ReleaseAll => DrainPushes(ix, |ix.core.waiting| + 1);
    case _ => SettlePushes(ix);
  }

  /** The group waits, wholly ready, after this run. */
  ghost predicate ReadyInLine<I, M>(strict: bool, ops: seq<Op<I, M>>, s: nat) {
    var st := After(Init<I, M>(strict), ops);
    s in st.waiting && s in st.ReadySet()
  }

  ghost predicate EverReadyInLine<I, M>(strict: bool, ops: seq<Op<I, M>>, s: nat) {
    exists i :: 0 <= i <= |ops| && ReadyInLine(strict, ops[..i], s)
  }

  lemma EverLater<I, M>(strict: bool, ops: seq<Op<I, M>>, s: nat)
    requires ops != []
    ensures EverReadyInLine(strict, ops, s) <==>
      EverReadyInLine(strict, ops[..|ops| - 1], s) || ReadyInLine(strict, ops, s)
  {
    hide ReadyInLine;
    var n := |ops| - 1;
    var front := ops[..n];
    assert ops[..n + 1] == ops && forall i | 0 <= i <= n :: ops[..i] == front[..i];
    if EverReadyInLine(strict, front, s) {
      var i :| 0 <= i <= n && ReadyInLine(strict, front[..i], s);
      assert ReadyInLine(strict, ops[..i], s);
    }
    if ReadyInLine(strict, ops, s) { assert ReadyInLine(strict, ops[..n + 1], s); }
  }

  lemma LiveIs<I, M>(strict: bool, ops: seq<Op<I, M>>, s: nat)
    ensures var ix := IxAfter(InitIx<I, M>(strict), ops);
      && (s in ix.live <==> !strict && ReadyInLine(strict, ops, s))
      && (s in ix.live ==> s in ix.pushes)
  {
    RunRefines<I, M>(strict, ops);
    RunEvolves(Init<I, M>(strict), ops);
    var ix := IxAfter(InitIx<I, M>(strict), ops);
    assert s in ix.live ==> s in Elements(ix.pushes);
  }

  /** A group's callback fires once, and only under relaxed order: exactly when the last of its
      members is marked while it waits. Repeated marks fire nothing, and neither does
      completing a group that has left. So the test in _note_ready for a number already in the
      table never turns a callback away: each one is followed by a push. */
  lemma CallbackOnce<I, M>(strict: bool, ops: seq<Op<I, M>>, s: nat)
    ensures var ix := IxAfter(InitIx<I, M>(strict), ops);
      && multiset(ix.notices)[s] == (if !strict && EverReadyInLine(strict, ops, s) then 1 else 0)
      && ix.notices == ix.pushes
  {
    hide ReadyInLine, EverReadyInLine, IndexStep;
    CallbackWhen(strict, ops, s);
    RunRefines<I, M>(strict, ops);
    DistinctCount(IxAfter(InitIx<I, M>(strict), ops).pushes, s);
  }

  lemma {:induction false} CallbackWhen<I, M>(strict: bool, ops: seq<Op<I, M>>, s: nat)
    ensures s in IxAfter(InitIx<I, M>(strict), ops).pushes <==> !strict && EverReadyInLine(strict, ops, s)
  {
    hide ReadyInLine, EverReadyInLine, IndexStep;
    if ops == [] {
      NeverAtFirst<I, M>(strict, s);
    } else {
      var front := ops[..|ops| - 1];
      CallbackWhen(strict, front, s);
      EverLater(strict, ops, s);
      LiveIs(strict, ops, s);
      StepNotes(IxAfter(InitIx<I, M>(strict), front), ops[|ops| - 1]);
    }
  }

  lemma NeverAtFirst<I, M>(strict: bool, s: nat)
    ensures !EverReadyInLine<I, M>(strict, [], s)
  {
  }

  lemma {:induction false} GoneStaysGone<I, M>(strict: bool, ops: seq<Op<I, M>>, more: seq<Op<I, M>>, s: nat)
    requires var ix := IxAfter(InitIx<I, M>(strict), ops);
      s < |ix.core.all| && s !in ix.core.waiting
    ensures var ix' := IxAfter(InitIx<I, M>(strict), ops + more);
      s < |ix'.core.all| && s !in ix'.core.waiting
    ensures s !in IxAfter(InitIx<I, M>(strict), ops).pushes ==>
      s !in IxAfter(InitIx<I, M>(strict), ops + more).pushes
  {
    hide IndexStep, Step;
    if more == [] {
      assert ops + more == ops;
    } else {
      var n := |more| - 1;
      var front := ops + more[..n];
      GoneStaysGone(strict, ops, more[..n], s);
      assert (ops + more)[..|ops + more| - 1] == front && (ops + more)[|ops + more| - 1] == more[n];
      RunRefines<I, M>(strict, front);
      var ix := IxAfter(InitIx<I, M>(strict), front);
      StepRefines(ix, more[n]);
      StepEvolves(ix.core, more[n]);
      StepNotes(ix, more[n]);
      LiveIs(strict, ops + more, s);
    }
  }

  /** No resurrection: an arrival number is pushed at most once in a queue's lifetime, and once
      its group has left it is never live again and never pushed any more, whatever is
      admitted, readmitted or marked afterwards. */
  lemma NoResurrection<I, M>(strict: bool, ops: seq<Op<I, M>>, more: seq<Op<I, M>>, s: nat)
    requires var ix := IxAfter(InitIx<I, M>(strict), ops);
      s < |ix.core.all| && s !in ix.core.waiting
    ensures var ix, ix' := IxAfter(InitIx<I, M>(strict), ops), IxAfter(InitIx<I, M>(strict), ops + more);
      && s !in ix'.core.waiting && s !in ix'.live
      && multiset(ix'.pushes)[s] <= 1
      && (s !in ix.pushes ==> s !in ix'.pushes)
  {
    RunRefines<I, M>(strict, ops + more);
    GoneStaysGone(strict, ops, more, s);
    DistinctCount(IxAfter(InitIx<I, M>(strict), ops + more).pushes, s);
  }
}
