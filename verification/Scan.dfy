/** The scan-based queue (examples/tito_example.py): the same two dictionaries, no readiness
index; whoever may leave is found by scanning the waiting groups in arrival order. */
module Scan {
  import opened Lists
  import opened Discipline
  import opened Guarantees
  import opened Tables

  class ScanGroup<I(==, !new), M(==, !new)> {
    const groupId: Option<I>
    const members: seq<M>
    var ready: map<M, bool>
    var readyCount: nat
    ghost var seqno: nat
    ghost var home: ScanQueue?<I, M>

    ghost function Marked(): set<M>
      reads `ready
    {
      set m | m in ready && ready[m]
    }

    ghost function Value(): Party<I, M>
      reads `ready
    {
      Party(groupId, members, Marked())
    }

    ghost predicate Valid()
      reads `ready, `readyCount
    {
      && members != [] && Distinct(members)
      && ready.Keys == Elements(members)
      && readyCount == |Marked()|
    }

    constructor (groupId: Option<I>, members: seq<M>, ready: map<M, bool>)
      requires members != [] && Distinct(members)
      requires ready.Keys == Elements(members) && forall m | m in ready :: !ready[m]
      ensures Valid() && Value() == Party(groupId, members, {}) && home == null
    {
      this.groupId, this.members, this.ready, this.readyCount := groupId, members, ready, 0;
      home := null;
      new;
      assert Marked() == {};
    }

    /** Group(group_id, members): a bare string is taken for the collection of its letters. */
    static method Create(groupId: Option<I>, members: Batch<M>) returns (r: Result<ScanGroup<I, M>>)
      ensures r.Success? <==> members.items != [] && Distinct(members.items)
      ensures r.Success? ==>
        && fresh(r.value) && r.value.Valid() && r.value.home == null
        && r.value.Value() == Party(groupId, members.items, {})
    {
      var list := members.items;
      if list == [] {
        return Failure;
      }
      var flags: map<M, bool> := map[];
      for i := 0 to |list|
        invariant flags.Keys == Elements(list[..i])
        invariant forall m | m in flags :: !flags[m]
      {
        flags := flags[list[i] := false];
        assert list[..i + 1] == list[..i] + [list[i]];
      }
      assert list[..|list|] == list;
      DistinctSize(list);
      if |flags.Keys| != |list| {
        return Failure;
      }
      var group := new ScanGroup(groupId, list, flags);
      return Success(group);
    }

    predicate IsReady()
      requires Valid()
      reads this
      ensures IsReady() <==> Value().Ready()
    {
      FullCount(members, Marked());
      readyCount == |members|
    }

    method SetReady(member: M)
      requires Valid() && member in ready
      modifies `ready, `readyCount
      ensures Valid() && Value() == old(Value()).Mark(member)
    {
      if !ready[member] {
        ready := ready[member := true];
        readyCount := readyCount + 1;
      }
      assert Marked() == old(Marked()) + {member};
    }

    method MarkReady(member: M) returns (r: Result<bool>)
      requires Valid()
      requires home != null ==> home.Valid() && seqno < |home.history| && home.history[seqno] == this
      modifies this, home
      ensures Valid() && home == old(home) && seqno == old(seqno)
      ensures r.Success? <==> member in members
      ensures r.Success? ==> Value() == old(Value()).Mark(member) && r.value == Value().Ready()
      ensures r.Failure? ==> Value() == old(Value())
      ensures home != null ==>
        && home.Valid() && home.history == old(home.history)
        && (home.core, Seen(r)) == HeldStep(old(home.core), seqno, member)
    {
      hide WellFormed, Lined, Indexed;
      if member !in ready {
        return Failure;
      }
      SetReady(member);
      if home != null {
        HeldKeeps(home.core, seqno, member);
        home.Follow(seqno, member);
      }
      return Success(IsReady());
    }
  }

  ghost predicate Enrolled<I(!new), M(!new)>(q: ScanQueue<I, M>, g: ScanGroup<I, M>, s: nat, c: State<I, M>)
    requires s < |c.all|
    reads g
  {
    g.home == q && g.seqno == s && g.Valid() && g.Value() == c.all[s]
  }

  ghost predicate Registered<I(!new), M(!new)>(q: ScanQueue<I, M>, history: seq<ScanGroup<I, M>>, c: State<I, M>)
    reads history
  {
    && |history| == |c.all| && c.strict == q.strictOrder
    && forall s: nat | s < |history| :: Enrolled(q, history[s], s, c)
  }

  /** Everyone is, except perhaps group `but`, which is in the register once. */
  ghost predicate RegisteredBut<I(!new), M(!new)>(q: ScanQueue<I, M>, history: seq<ScanGroup<I, M>>, c: State<I, M>,
                                                  but: nat)
    requires but < |history|
    reads set g | g in history && g != history[but]
  {
    && |history| == |c.all| && c.strict == q.strictOrder
    && forall s: nat | s < |history| && s != but :: history[s] != history[but] && Enrolled(q, history[s], s, c)
  }

  lemma RegisteredMark<I(!new), M(!new)>(q: ScanQueue<I, M>, history: seq<ScanGroup<I, M>>, c: State<I, M>, s: nat,
                                         m: M)
    requires s < |history| && RegisteredBut(q, history, c, s)
    requires Enrolled(q, history[s], s, c.Mark(s, m))
    ensures Registered(q, history, c.Mark(s, m))
  {
    var c' := c.Mark(s, m);
    forall t: nat | t < |history| ensures Enrolled(q, history[t], t, c') {
      if t != s { assert Enrolled(q, history[t], t, c) && c'.all[t] == c.all[t]; }
    }
  }

  /** The groups with these arrival numbers. */
  ghost predicate Named<I(!new), M(!new)>(groups: seq<ScanGroup<I, M>>, seqnos: seq<nat>,
                                          history: seq<ScanGroup<I, M>>) {
    && |groups| == |seqnos|
    && forall i | 0 <= i < |groups| :: seqnos[i] < |history| && groups[i] == history[seqnos[i]]
  }

  class ScanQueue<I(==, !new), M(==, !new)> {
    const strictOrder: bool
    var order: seq<Option<I>>                   // _groups, an insertion-ordered dictionary:
    var table: map<Option<I>, ScanGroup<I, M>>  //   its key order and its entries
    var memberIndex: map<M, Option<I>>
    ghost var history: seq<ScanGroup<I, M>>     // every group ever admitted
    ghost var core: State<I, M>                 // the line, as a value

    ghost predicate Shape()
      reads this, history
    {
      Registered(this, history, core) && Lined(order, table, core, history) && Indexed(memberIndex, core)
    }

    ghost predicate Valid()
      reads this, history
    {
      Shape() && WellFormed(core)
    }

    constructor (strictOrder: bool)
      ensures Valid() && history == [] && core == Init(strictOrder)
    {
      this.strictOrder := strictOrder;
      order, table, memberIndex := [], map[], map[];
      history, core := [], Init(strictOrder);
    }

    /** Takes the mark just written in group `s` into the line. */
    ghost method Follow(s: nat, member: M)
      requires s < |history| == |core.all| && RegisteredBut(this, history, core, s)
      requires Enrolled(this, history[s], s, core.Mark(s, member))
      requires Lined(order, table, core, history) && Indexed(memberIndex, core)
      modifies `core
      ensures Shape() && core == old(core).Mark(s, member)
    {
      hide Registered, RegisteredBut, Enrolled, Lined, Indexed;
      RegisteredMark(this, history, core, s, member);
      MarkedTables(order, table, memberIndex, core, history, core.Mark(s, member));
      core := core.Mark(s, member);
    }

    method Find(id: Option<I>) returns (r: Option<ScanGroup<I, M>>)
      requires Valid()
      ensures match core.Find(id)
        case None => r == None
        case Some(s) => s < |history| && r == Some(history[s]) && s in core.waiting
      ensures r == if id in table then Some(table[id]) else None
    {
      hide WellFormed, Registered, Lined, Indexed;
      TableFinds(order, table, core, history, id);
      return if id in table then Some(table[id]) else None;
    }

    /** A member of a group admitted under the id None is taken for not queued. */
    method GroupOf(member: M) returns (r: Option<ScanGroup<I, M>>)
      requires Valid()
      ensures r.None? <==> core.Holder(member).None? || HeldByNone(core, member)
      ensures r.None? <==> member !in memberIndex || memberIndex[member].None?
      ensures r.Some? ==>
        && core.Holder(member).Some? && core.Holder(member).value < |history|
        && r == Some(history[core.Holder(member).value])
    {
      hide WellFormed, Registered, Lined;
      IndexFinds(order, table, memberIndex, core, history, member);
      var id := if member in memberIndex then memberIndex[member] else None;
      if id == None {
        return None;
      }
      return Some(table[id]);
    }

    method MarkReady(member: M) returns (r: Result<bool>)
      requires Valid()
      modifies this, set g | g in history
      ensures Valid() && history == old(history)
      ensures (core, Seen(r)) == ScanStep(old(core), Op.MarkReady(member))
      ensures r.Failure? <==> member !in old(memberIndex) || old(memberIndex)[member].None?
    {
      hide WellFormed, Lined, Indexed;
      var group := GroupOf(member);
      if group.None? {
        return Failure;
      }
      r := group.value.MarkReady(member);
    }

    method MarkGroupReady(id: Option<I>) returns (r: Result<bool>)
      requires Valid()
      modifies this, set g | g in history
      ensures Valid() && history == old(history)
      ensures (core, Seen(r)) == ScanStep(old(core), MarkGroup(id))
      ensures r == if id in old(table) then Success(true) else Failure
    {
      hide WellFormed, Lined, Indexed;
      var found := Find(id);
      if found.None? {
        return Failure;
      }
      MarkEach(found.value, core.Find(id).value);
      EachMarksWhole(old(core), old(core).Find(id).value);
      return Success(true);
    }

    method MarkEach(group: ScanGroup<I, M>, ghost s: nat)
      requires Valid() && s < |history| && history[s] == group
      modifies this, set g | g in history
      ensures Valid() && history == old(history)
      ensures s < |old(core).all| && group.members == old(core).all[s].members
      ensures core == Each(old(core), s, group.members)
    {
      hide WellFormed, Registered, Lined, Indexed, HeldStep;
      AtHome(s);
      for i := 0 to |group.members|
        invariant Valid() && history == old(history)
        invariant Each(core, s, group.members[i..]) == Each(old(core), s, group.members)
      {
        AtHome(s);
        assert group.members[i..][1..] == group.members[i + 1..];
        var _ := group.MarkReady(group.members[i]);
      }
    }

    lemma AtHome(s: nat)
      requires Valid() && s < |history|
      ensures |core.all| == |history| && Enrolled(this, history[s], s, core)
    {
    }

    method LeaveLine(group: ScanGroup<I, M>, ghost s: nat, ghost how: How)
      requires Valid() && s in core.waiting && s < |history| && history[s] == group
      modifies `order, `table, `memberIndex
      ensures Lined(order, table, core.Depart([s], how), history)
      ensures Indexed(memberIndex, core.Depart([s], how))
    {
      hide Lined, Indexed, Drop, State.Depart;
      assert Enrolled(this, group, s, core);
      LinedWithout(order, table, core, history, s, how);
      IndexedWithout(memberIndex, core, s, how);
      order := Without(order, group.groupId);
      table := table - {group.groupId};
      memberIndex := Tables.DeleteAll(memberIndex, group.members);
    }

    /** _remove */
    method Remove(group: ScanGroup<I, M>, ghost how: How)
      requires Valid() && group.seqno in core.waiting
      requires group.seqno < |history| && history[group.seqno] == group
      modifies this
      ensures Shape() && history == old(history) && core == old(core).Depart([group.seqno], how)
    {
      hide WellFormed, Lined, Indexed, Drop;
      LeaveLine(group, group.seqno, how);
      core := core.Depart([group.seqno], how);
    }

    /** The scan: the first ready group, unless the head of a strict line is not ready. */
    method Peek() returns (r: Option<ScanGroup<I, M>>)
      requires Valid()
      ensures match core.Next()
        case None => r == None
        case Some(s) => s < |history| && r == Some(history[s])
    {
      hide Indexed, Disjoint, Conserved, InLine;
      for i := 0 to |order|
        invariant forall j | 0 <= j < i :: core.waiting[j] !in core.ReadySet()
        invariant strictOrder ==> i == 0
      {
        var group := table[order[i]];
        assert Enrolled(this, group, core.waiting[i], core);
        if group.IsReady() {
          FirstAt(core.waiting, core.ReadySet(), i);
          return Some(group);
        }
        if strictOrder {
          return None;
        }
      }
      assert forall s | s in core.waiting :: s !in core.ReadySet();
      return None;
    }

    method Release() returns (r: Option<ScanGroup<I, M>>)
      requires Valid()
      modifies this
      ensures Valid() && history == old(history)
      ensures core == ScanStep(old(core), Op.Release).0
      ensures match old(core).Next()
        case None => r == None
        case Some(s) => s < |history| && r == Some(history[s])
    {
      hide WellFormed, Lined, Indexed, Drop, First;
      var group := Peek();
      if group.None? {
        return None;
      }
      NextDeparts(core, group.value.seqno);
      Remove(group.value, Left);
      return group;
    }

    method ReleaseAll() returns (released: seq<ScanGroup<I, M>>)
      requires Valid()
      modifies this
      ensures Valid() && history == old(history)
      ensures core == ScanStep(old(core), Op.ReleaseAll).0
      ensures Named(released, old(core).Departing(), history)
    {
      hide WellFormed, Registered, Lined, Indexed, State.Departing, State.Depart, State.Next;
      released := [];
      ghost var gone: seq<nat> := [];
      assert gone + core.Departing() == core.Departing();
      while true
        invariant Valid() && history == old(history) && Named(released, gone, history)
        invariant old(core).Departing() == gone + core.Departing()
        invariant old(core).Depart(old(core).Departing(), Left) == core.Depart(core.Departing(), Left)
        decreases |core.waiting|
      {
        DrainTurn(core);
        ghost var next := core.Next();
        var group := Release();
        if group.None? {
          return;
        }
        assert gone + ([next.value] + core.Departing()) == gone + [next.value] + core.Departing();
        released, gone := released + [group.value], gone + [next.value];
      }
    }

    method Cancel(id: Option<I>) returns (r: Result<ScanGroup<I, M>>)
      requires Valid()
      modifies this
      ensures Valid() && history == old(history)
      ensures core == ScanStep(old(core), Op.Cancel(id)).0
      ensures match old(core).Find(id)
        case None => r == Failure
        case Some(s) => s < |history| && r == Success(history[s])
      ensures r == if id in old(table) then Success(old(table)[id]) else Failure
    {
      hide WellFormed, Lined, Indexed;
      var found := Find(id);
      if found.None? {
        return Failure;
      }
      DepartKeeps(core, [found.value.seqno], Withdrawn);
      Remove(found.value, Withdrawn);
      return Success(found.value);
    }

    /** Waiting groups, in arrival order. */
    function Groups(): (r: seq<ScanGroup<I, M>>)
      requires Shape()
      reads this, history
      ensures Named(r, core.waiting, history)
    {
      seq(|order|, i requires 0 <= i < |order| && order[i] in table reads this => table[order[i]])
    }

    method Clear() returns (cleared: seq<ScanGroup<I, M>>)
      requires Valid()
      modifies this
      ensures Valid() && history == old(history)
      ensures core == ScanStep(old(core), Op.Clear).0
      ensures Named(cleared, old(core).waiting, history)
    {
      hide Lined, Indexed, Named, Drop;
      cleared := Groups();
      DepartKeeps(core, core.waiting, Flushed);
      DropAll(core.waiting, Elements(core.waiting));
      EmptyTables(order, table, core, history, core.Depart(core.waiting, Flushed));
      order, table, memberIndex := [], map[], map[];
      core := core.Depart(core.waiting, Flushed);
    }

    method Admit(id: Option<I>, members: Batch<M>) returns (r: Result<ScanGroup<I, M>>)
      requires Valid()
      modifies this
      ensures Valid()
      ensures r.Success? <==> old(core).CanAdmit(id, members.items)
      ensures r.Success? ==>
        && core == old(core).Enter(id, members.items)
        && fresh(r.value) && history == old(history) + [r.value]
      ensures r.Failure? ==> core == old(core) && history == old(history)
    {
      hide WellFormed, Registered, Lined, State.CanAdmit;
      var built := ScanGroup.Create(id, members);
      if built.Failure? {
        RefusedItems(core, id, members.items);
        return Failure;
      }
      var group := built.value;
      AdmissionTest(id, members.items);
      if id in table {
        return Failure;
      }
      if exists m :: m in group.members && m in memberIndex {
        return Failure;
      }
      EnterKeeps(core, id, members.items);
      Publish(group);
      return Success(group);
    }

    lemma AdmissionTest(id: Option<I>, items: seq<M>)
      requires Valid()
      ensures core.CanAdmit(id, items) <==>
        items != [] && Distinct(items) && id !in table && forall m | m in items :: m !in memberIndex
    {
      hide WellFormed, Registered, Lined, Distinct;
      TableFinds(order, table, core, history, id);
    }

    method Publish(group: ScanGroup<I, M>)
      requires Valid() && core.CanAdmit(group.groupId, group.members) && group.groupId !in table
      requires group !in history && group.Valid() && group.Marked() == {}
      modifies this, group
      ensures Shape() && history == old(history) + [group]
      ensures core == old(core).Enter(group.groupId, group.members)
    {
      hide WellFormed, Lined, Indexed, State.CanAdmit;
      LinedWith(order, table, core, history, group.groupId, group.members, group);
      IndexedWith(memberIndex, core, group.groupId, group.members);
      order, table := order + [group.groupId], table[group.groupId := group];
      memberIndex := Tables.AddAll(memberIndex, group.groupId, group.members);
      group.home, group.seqno := this, |history|;
      history := history + [group];
      core := core.Enter(group.groupId, group.members);
    }
  }

  lemma RefusedItems<I(!new), M(!new)>(c: State<I, M>, id: Option<I>, items: seq<M>)
    requires items == [] || !Distinct(items)
    ensures !c.CanAdmit(id, items)
  {
  }

  /** The loop of mark_group_ready. */
  ghost function Each<I(!new), M(!new)>(c: State<I, M>, s: nat, ms: seq<M>): State<I, M>
    decreases |ms|
  {
    if ms == [] then c else Each(HeldStep(c, s, ms[0]).0, s, ms[1..])
  }

  lemma {:induction false} EachMarks<I(!new), M(!new)>(c: State<I, M>, s: nat, ms: seq<M>)
    requires s < |c.all| && forall m | m in ms :: m in c.all[s].members
    ensures var p := c.all[s];
      Each(c, s, ms) == c.(all := c.all[s := p.(marked := p.marked + Elements(ms))])
    decreases |ms|
  {
    var p := c.all[s];
    if ms == [] {
      assert p.(marked := p.marked + Elements(ms)) == p;
    } else {
      EachMarks(c.Mark(s, ms[0]), s, ms[1..]);
      assert p.marked + {ms[0]} + Elements(ms[1..]) == p.marked + Elements(ms);
    }
  }

  lemma EachMarksWhole<I(!new), M(!new)>(c: State<I, M>, s: nat)
    requires WellFormed(c) && s < |c.all|
    ensures Each(c, s, c.all[s].members) == c.(all := c.all[s := c.all[s].MarkWhole()])
  {
    EachMarks(c, s, c.all[s].members);
    assert c.all[s].Valid() && c.all[s].marked + Elements(c.all[s].members) == Elements(c.all[s].members);
  }
}
