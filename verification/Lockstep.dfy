/** Both Python queues, driven by one caller.

The caller keeps every group it was handed, so it can call `mark_ready` on a group directly,
while it waits or after it has gone. What it sees of each call is an `Outcome`. */
module Lockstep {
  import opened Lists
  import opened Discipline
  import opened Guarantees
  import opened ReadyIndex
  import Tables
  import T = Tito
  import S = Scan

  // ---------- the indexed queue ----------

  lemma HeldTito<I(!new), M(!new)>(q: T.TitoQueue<I, M>, s: nat)
    requires q.Valid() && s < |q.history|
    ensures var g := q.history[s]; g.Valid() && g.home == q && g.sequence == s && g.AtHome()
    ensures |q.model.core.all| == |q.history| && q.history[s].members == q.model.core.all[s].members
  {
    assert T.Enrolled(q, q.history[s], s, q.core);
  }

  method ShowTito<I(==, !new), M(==, !new)>(q: T.TitoQueue<I, M>, r: Option<T.Group<I, M>>, ghost s: Option<nat>)
    returns (out: Outcome)
    requires q.Valid()
    requires match s case None => r == None case Some(n) => n < |q.history| && r == Some(q.history[n])
    ensures out == Maybe(s)
  {
    if r.Some? {
      HeldTito(q, s.value);
    }
    return Maybe(if r.Some? then Some(r.value.sequence) else None);
  }

  method ShowAllTito<I(==, !new), M(==, !new)>(q: T.TitoQueue<I, M>, groups: seq<T.Group<I, M>>, ghost seqnos: seq<nat>)
    returns (out: Outcome)
    requires q.Valid() && T.Named(groups, seqnos, q.history)
    ensures out == Many(seqnos)
  {
    hide T.TitoQueue.Valid;
    var numbers: seq<nat> := [];
    for i := 0 to |groups|
      invariant numbers == seqnos[..i]
    {
      HeldTito(q, seqnos[i]);
      numbers := numbers + [groups[i].sequence];
      assert seqnos[..i + 1] == seqnos[..i] + [seqnos[i]];
    }
    assert seqnos[..|groups|] == seqnos;
    return Many(numbers);
  }

  method AdmitTito<I(==, !new), M(==, !new)>(q: T.TitoQueue<I, M>, held: seq<T.Group<I, M>>,
                                             id: Option<I>, members: Batch<M>)
    returns (out: Outcome, held': seq<T.Group<I, M>>)
    requires q.Valid() && held == q.history
    modifies q
    ensures q.Valid() && held' == q.history && |old(q.history)| <= |q.history|
    ensures forall g | g in q.history && g !in old(q.history) :: fresh(g)
    ensures (q.model, out) == IndexStep(old(q.model), Op.Admit(id, members))
  {
    hide Inv, T.Registered, T.Enrolled, T.Heaped, T.Named;
    hide DrainIx, EachIx, Settle, RemoveIx, ReleaseIx, PeekIx, First, State.CanAdmit;
    NotHeld(q);
    var r := q.Admit(id, members);
    if r.Failure? {
      return Rejected, held;
    }
    held' := held + [r.value];
    out := ShowTito(q, Some(r.value), Some(|held|));
  }

  method HeldMarkTito<I(==, !new), M(==, !new)>(q: T.TitoQueue<I, M>, held: seq<T.Group<I, M>>, s: nat, m: M)
    returns (out: Outcome)
    requires q.Valid() && held == q.history
    modifies q, set g | g in q.history
    ensures q.Valid() && q.history == old(q.history)
    ensures (q.model, out) == IndexStep(old(q.model), MarkHeld(s, m))
  {
    hide Inv, T.Registered, T.Enrolled, T.Heaped, T.Named;
    hide DrainIx, EachIx, Settle, RemoveIx, ReleaseIx, PeekIx, First, State.CanAdmit;
    NotHeld(q);
    if s >= |held| {
      return Rejected;
    }
    HeldTito(q, s);
    var r := held[s].MarkReady(m);
    return Seen(r);
  }

  method CancelTito<I(==, !new), M(==, !new)>(q: T.TitoQueue<I, M>, id: Option<I>) returns (out: Outcome)
    requires q.Valid()
    modifies q, set g | g in q.history
    ensures q.Valid() && q.history == old(q.history)
    ensures (q.model, out) == IndexStep(old(q.model), Op.Cancel(id))
  {
    hide Inv, T.Registered, T.Enrolled, T.Heaped, T.Named;
    hide DrainIx, EachIx, Settle, RemoveIx, ReleaseIx, PeekIx, First, State.CanAdmit;
    ghost var s := q.core.Find(id);
    var r := q.Cancel(id);
    if r.Failure? {
      return Rejected;
    }
    out := ShowTito(q, Some(r.value), s);
  }

  method ClearTito<I(==, !new), M(==, !new)>(q: T.TitoQueue<I, M>) returns (out: Outcome)
    requires q.Valid()
    modifies q, set g | g in q.history
    ensures q.Valid() && q.history == old(q.history)
    ensures (q.model, out) == IndexStep(old(q.model), Op.Clear)
  {
    hide Inv, T.Registered, T.Enrolled, T.Heaped, T.Named;
    hide DrainIx, EachIx, Settle, RemoveIx, ReleaseIx, PeekIx, First, State.CanAdmit;
    ghost var line := q.core.waiting;
    var r := q.Clear();
    out := ShowAllTito(q, r, line);
  }

  method PeekTito<I(==, !new), M(==, !new)>(q: T.TitoQueue<I, M>) returns (out: Outcome)
    requires q.Valid()
    modifies q
    ensures q.Valid() && q.history == old(q.history)
    ensures (q.model, out) == IndexStep(old(q.model), Op.Peek)
  {
    hide Inv, T.Registered, T.Enrolled, T.Heaped, T.Named;
    hide DrainIx, EachIx, Settle, RemoveIx, ReleaseIx, PeekIx, First, State.CanAdmit;
    ghost var s := PeekIx(q.model).1;
    var r := q.Peek();
    out := ShowTito(q, r, s);
  }

  method ReleaseTito<I(==, !new), M(==, !new)>(q: T.TitoQueue<I, M>) returns (out: Outcome)
    requires q.Valid()
    modifies q, set g | g in q.history
    ensures q.Valid() && q.history == old(q.history)
    ensures (q.model, out) == IndexStep(old(q.model), Op.Release)
  {
    hide Inv, T.Registered, T.Enrolled, T.Heaped, T.Named;
    hide DrainIx, EachIx, Settle, RemoveIx, ReleaseIx, PeekIx, First, State.CanAdmit;
    ghost var s := ReleaseIx(q.model).1;
    var r := q.Release();
    out := ShowTito(q, r, s);
  }

  method ReleaseAllTito<I(==, !new), M(==, !new)>(q: T.TitoQueue<I, M>) returns (out: Outcome)
    requires q.Valid()
    modifies q, set g | g in q.history
    ensures q.Valid() && q.history == old(q.history)
    ensures (q.model, out) == IndexStep(old(q.model), Op.ReleaseAll)
  {
    hide Inv, T.Registered, T.Enrolled, T.Heaped, T.Named;
    hide DrainIx, EachIx, Settle, RemoveIx, ReleaseIx, PeekIx, First, State.CanAdmit;
    ghost var gone := DrainIx(q.model, |q.core.waiting| + 1).1;
    var r := q.ReleaseAll();
    out := ShowAllTito(q, r, gone);
  }

  method GroupOfTito<I(==, !new), M(==, !new)>(q: T.TitoQueue<I, M>, m: M) returns (out: Outcome)
    requires q.Valid()
    ensures (q.model, out) == IndexStep(q.model, GroupOf(m))
  {
    hide T.TitoQueue.Valid, First;
    NotHeld(q);
    var r := q.GroupOf(m);
    out := ShowTito(q, r, q.core.Holder(m));
  }

  /** One call on the indexed queue, by a caller who holds every group admitted so far. */
  method CallTito<I(==, !new), M(==, !new)>(q: T.TitoQueue<I, M>, held: seq<T.Group<I, M>>, op: Op<I, M>)
    returns (out: Outcome, held': seq<T.Group<I, M>>)
    requires q.Valid() && held == q.history
    modifies q, set g | g in q.history
    ensures q.Valid() && held' == q.history && |old(q.history)| <= |q.history|
    ensures forall g | g in q.history && g !in old(q.history) :: fresh(g)
    ensures (q.model, out) == IndexStep(old(q.model), op)
  {
    hide T.TitoQueue.Valid;
    hide DrainIx, EachIx, Settle, RemoveIx, ReleaseIx, PeekIx, First, State.CanAdmit;
    held' := held;
    match op
    case Admit(id, members) => out, held' := AdmitTito(q, held, id, members);
    case MarkReady(m) =>
      var r := q.MarkReady(m);
      out := Seen(r);
    case MarkGroup(id) =>
      var r := q.MarkGroupReady(id);
      out := Seen(r);
    case MarkHeld(s, m) => out := HeldMarkTito(q, held, s, m);
    case GroupOf(m) => out := GroupOfTito(q, m);
    case Cancel(id) => out := CancelTito(q, id);
    case Clear => out := ClearTito(q);
    case Peek => out := PeekTito(q);
    case Release => out := ReleaseTito(q);
    case ReleaseAll => out := ReleaseAllTito(q);
  }

  lemma NotHeld<I(!new), M(!new)>(q: T.TitoQueue<I, M>)
    requires q.Valid()
    ensures |q.core.all| == |q.history| && q.model.core == q.core
  {
  }

  // ---------- the scan queue ----------

  lemma HeldScan<I(!new), M(!new)>(q: S.ScanQueue<I, M>, s: nat)
    requires q.Valid() && s < |q.history|
    ensures var g := q.history[s]; g.Valid() && g.home == q && g.seqno == s
    ensures |q.core.all| == |q.history| && q.history[s].members == q.core.all[s].members
  {
    assert S.Enrolled(q, q.history[s], s, q.core);
  }

  /** A group of the scan queue has no number; the caller names it by its place among those held. */
  method PlaceOf<I(==, !new), M(==, !new)>(q: S.ScanQueue<I, M>, held: seq<S.ScanGroup<I, M>>, group: S.ScanGroup<I, M>,
                                           ghost s: nat)
    returns (n: nat)
    requires q.Valid() && held == q.history && s < |held| && held[s] == group
    ensures n == s
  {
    hide S.ScanQueue.Valid;
    n := 0;
    while held[n] != group
      invariant n <= s
      decreases s - n
    {
      n := n + 1;
    }
    HeldScan(q, n);
    HeldScan(q, s);
  }

  method ShowScan<I(==, !new), M(==, !new)>(q: S.ScanQueue<I, M>, held: seq<S.ScanGroup<I, M>>,
                                            r: Option<S.ScanGroup<I, M>>, ghost s: Option<nat>)
    returns (out: Outcome)
    requires q.Valid() && held == q.history
    requires match s case None => r == None case Some(n) => n < |held| && r == Some(held[n])
    ensures out == Maybe(s)
  {
    if r.None? {
      return Maybe(None);
    }
    var n := PlaceOf(q, held, r.value, s.value);
    return Maybe(Some(n));
  }

  method ShowAllScan<I(==, !new), M(==, !new)>(q: S.ScanQueue<I, M>, held: seq<S.ScanGroup<I, M>>,
                                               groups: seq<S.ScanGroup<I, M>>, ghost seqnos: seq<nat>)
    returns (out: Outcome)
    requires q.Valid() && held == q.history && S.Named(groups, seqnos, held)
    ensures out == Many(seqnos)
  {
    hide S.ScanQueue.Valid;
    var numbers: seq<nat> := [];
    for i := 0 to |groups|
      invariant numbers == seqnos[..i]
    {
      var n := PlaceOf(q, held, groups[i], seqnos[i]);
      numbers := numbers + [n];
      assert seqnos[..i + 1] == seqnos[..i] + [seqnos[i]];
    }
    assert seqnos[..|groups|] == seqnos;
    return Many(numbers);
  }

  method AdmitScan<I(==, !new), M(==, !new)>(q: S.ScanQueue<I, M>, held: seq<S.ScanGroup<I, M>>,
                                             id: Option<I>, members: Batch<M>)
    returns (out: Outcome, held': seq<S.ScanGroup<I, M>>)
    requires q.Valid() && held == q.history
    modifies q
    ensures q.Valid() && held' == q.history && |old(q.history)| <= |q.history|
    ensures forall g | g in q.history && g !in old(q.history) :: fresh(g)
    ensures (q.core, out) == ScanStep(old(q.core), Op.Admit(id, members))
  {
    hide WellFormed, S.Registered, S.Enrolled, S.Named, Tables.Lined, Tables.Indexed, First, State.CanAdmit;
    held' := held;
    SizesAgree(q);
    var r := q.Admit(id, members);
    if r.Failure? {
      return Rejected, held;
    }
    held' := held + [r.value];
    out := ShowScan(q, held', Some(r.value), Some(|held|));
  }

  method HeldMarkScan<I(==, !new), M(==, !new)>(q: S.ScanQueue<I, M>, held: seq<S.ScanGroup<I, M>>, s: nat, m: M)
    returns (out: Outcome)
    requires q.Valid() && held == q.history
    modifies q, set g | g in q.history
    ensures q.Valid() && q.history == old(q.history)
    ensures (q.core, out) == ScanStep(old(q.core), MarkHeld(s, m))
  {
    hide WellFormed, S.Registered, S.Enrolled, S.Named, Tables.Lined, Tables.Indexed, First, Prefix, Keep, Drop;
    SizesAgree(q);
    if s >= |held| {
      return Rejected;
    }
    HeldScan(q, s);
    var r := held[s].MarkReady(m);
    return Seen(r);
  }

  method CancelScan<I(==, !new), M(==, !new)>(q: S.ScanQueue<I, M>, held: seq<S.ScanGroup<I, M>>, id: Option<I>)
    returns (out: Outcome)
    requires q.Valid() && held == q.history
    modifies q
    ensures q.Valid() && q.history == old(q.history)
    ensures (q.core, out) == ScanStep(old(q.core), Op.Cancel(id))
  {
    hide WellFormed, S.Registered, S.Enrolled, S.Named, Tables.Lined, Tables.Indexed, First, Prefix, Keep, Drop;
    ghost var s := q.core.Find(id);
    var r := q.Cancel(id);
    if r.Failure? {
      return Rejected;
    }
    out := ShowScan(q, held, Some(r.value), s);
  }

  method ClearScan<I(==, !new), M(==, !new)>(q: S.ScanQueue<I, M>, held: seq<S.ScanGroup<I, M>>)
    returns (out: Outcome)
    requires q.Valid() && held == q.history
    modifies q
    ensures q.Valid() && q.history == old(q.history)
    ensures (q.core, out) == ScanStep(old(q.core), Op.Clear)
  {
    hide WellFormed, S.Registered, S.Enrolled, S.Named, Tables.Lined, Tables.Indexed, First, Prefix, Keep, Drop;
    ghost var line := q.core.waiting;
    var r := q.Clear();
    out := ShowAllScan(q, held, r, line);
  }

  method ReleaseScan<I(==, !new), M(==, !new)>(q: S.ScanQueue<I, M>, held: seq<S.ScanGroup<I, M>>)
    returns (out: Outcome)
    requires q.Valid() && held == q.history
    modifies q
    ensures q.Valid() && q.history == old(q.history)
    ensures (q.core, out) == ScanStep(old(q.core), Op.Release)
  {
    hide WellFormed, S.Registered, S.Enrolled, S.Named, Tables.Lined, Tables.Indexed, First, Prefix, Keep, Drop;
    ghost var s := q.core.Next();
    var r := q.Release();
    out := ShowScan(q, held, r, s);
  }

  method ReleaseAllScan<I(==, !new), M(==, !new)>(q: S.ScanQueue<I, M>, held: seq<S.ScanGroup<I, M>>)
    returns (out: Outcome)
    requires q.Valid() && held == q.history
    modifies q
    ensures q.Valid() && q.history == old(q.history)
    ensures (q.core, out) == ScanStep(old(q.core), Op.ReleaseAll)
  {
    hide WellFormed, S.Registered, S.Enrolled, S.Named, Tables.Lined, Tables.Indexed, First, Prefix, Keep, Drop;
    ghost var gone := q.core.Departing();
    var r := q.ReleaseAll();
    out := ShowAllScan(q, held, r, gone);
  }

  method GroupOfScan<I(==, !new), M(==, !new)>(q: S.ScanQueue<I, M>, held: seq<S.ScanGroup<I, M>>, m: M)
    returns (out: Outcome)
    requires q.Valid() && held == q.history
    ensures (q.core, out) == ScanStep(q.core, GroupOf(m))
  {
    hide WellFormed, S.Registered, S.Enrolled, S.Named, Tables.Lined, Tables.Indexed, First;
    var r := q.GroupOf(m);
    out := ShowScan(q, held, r, if HeldByNone(q.core, m) then None else q.core.Holder(m));
  }

  method PeekScan<I(==, !new), M(==, !new)>(q: S.ScanQueue<I, M>, held: seq<S.ScanGroup<I, M>>) returns (out: Outcome)
    requires q.Valid() && held == q.history
    ensures (q.core, out) == ScanStep(q.core, Peek)
  {
    hide WellFormed, S.Registered, S.Enrolled, S.Named, Tables.Lined, Tables.Indexed, First;
    var r := q.Peek();
    out := ShowScan(q, held, r, q.core.Next());
  }

  /** One call on the scan queue, by a caller who holds every group admitted so far. */
  method CallScan<I(==, !new), M(==, !new)>(q: S.ScanQueue<I, M>, held: seq<S.ScanGroup<I, M>>, op: Op<I, M>)
    returns (out: Outcome, held': seq<S.ScanGroup<I, M>>)
    requires q.Valid() && held == q.history
    modifies q, set g | g in q.history
    ensures q.Valid() && held' == q.history && |old(q.history)| <= |q.history|
    ensures forall g | g in q.history && g !in old(q.history) :: fresh(g)
    ensures (q.core, out) == ScanStep(old(q.core), op)
  {
    hide S.ScanQueue.Valid, Step, First;
    held' := held;
    match op
    case Admit(id, members) => out, held' := AdmitScan(q, held, id, members);
    case MarkReady(m) =>
      var r := q.MarkReady(m);
      out := Seen(r);
    case MarkGroup(id) =>
      var r := q.MarkGroupReady(id);
      out := Seen(r);
    case MarkHeld(s, m) => out := HeldMarkScan(q, held, s, m);
    case GroupOf(m) => out := GroupOfScan(q, held, m);
    case Cancel(id) => out := CancelScan(q, held, id);
    case Clear => out := ClearScan(q, held);
    case Peek => out := PeekScan(q, held);
    case Release => out := ReleaseScan(q, held);
    case ReleaseAll => out := ReleaseAllScan(q, held);
  }

  lemma SizesAgree<I(!new), M(!new)>(q: S.ScanQueue<I, M>)
    requires q.Valid()
    ensures |q.core.all| == |q.history|
  {
  }

  // ---------- both ----------

  method RunTito<I(==, !new), M(==, !new)>(strict: bool, script: seq<Op<I, M>>) returns (outs: seq<Outcome>)
    ensures outs == IxOutcomes(InitIx<I, M>(strict), script)
  {
    hide T.TitoQueue.Valid, IndexStep;
    var q := new T.TitoQueue<I, M>(strict);
    var held: seq<T.Group<I, M>> := [];
    outs := [];
    for i := 0 to |script|
      invariant q.Valid() && held == q.history && fresh(q) && (forall g | g in q.history :: fresh(g))
      invariant q.model == IxAfter(InitIx<I, M>(strict), script[..i])
      invariant outs == IxOutcomes(InitIx<I, M>(strict), script[..i])
    {
      assert script[..i + 1][..i] == script[..i];
      var out: Outcome;
      out, held := CallTito(q, held, script[i]);
      outs := outs + [out];
    }
    assert script[..|script|] == script;
  }

  method RunScan<I(==, !new), M(==, !new)>(strict: bool, script: seq<Op<I, M>>) returns (outs: seq<Outcome>)
    ensures outs == ScanOutcomes(Init<I, M>(strict), script)
  {
    hide S.ScanQueue.Valid, ScanStep;
    var q := new S.ScanQueue<I, M>(strict);
    var held: seq<S.ScanGroup<I, M>> := [];
    outs := [];
    for i := 0 to |script|
      invariant q.Valid() && held == q.history && fresh(q) && (forall g | g in q.history :: fresh(g))
      invariant q.core == ScanAfter(Init<I, M>(strict), script[..i])
      invariant outs == ScanOutcomes(Init<I, M>(strict), script[..i])
    {
      assert script[..i + 1][..i] == script[..i];
      var out: Outcome;
      out, held := CallScan(q, held, script[i]);
      outs := outs + [out];
    }
    assert script[..|script|] == script;
  }

  /** Runs one script on a fresh queue of each kind. What the caller sees agrees throughout
      exactly when the script stays clear of the two deliberate differences. */
  method RunBoth<I(==, !new), M(==, !new)>(strict: bool, script: seq<Op<I, M>>)
    returns (tito: seq<Outcome>, scan: seq<Outcome>)
    ensures tito == Outcomes(Init<I, M>(strict), script)
    ensures scan == ScanOutcomes(Init<I, M>(strict), script)
    ensures tito == scan <==> !RunDiverges(Init<I, M>(strict), script)
  {
    tito := RunTito(strict, script);
    scan := RunScan(strict, script);
    RunRefines<I, M>(strict, script);
    IndexedMatchesScan<I, M>(strict, script);
  }
}
