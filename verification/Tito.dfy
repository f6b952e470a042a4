/** The package (tito/tito.py): groups and the heap-indexed queue, updated in place.

`TitoQueue.model` is the value of the queue in the sense of `ReadyIndex`; `Shape` ties every
field to it, and every method changes it by the step of the same name. */
module Tito {
  import opened Lists
  import opened Discipline
  import opened Guarantees
  import opened ReadyIndex
  import opened BinaryHeap
  import opened Tables

  class Group<I(==, !new), M(==, !new)> {
    const groupId: Option<I>
    const members: seq<M>
    var ready: map<M, bool>
    var readyCount: nat
    var sequence: nat
    var onReady: TitoQueue?<I, M>     // the readiness callback, as the queue it notifies
    ghost var home: TitoQueue?<I, M>  // the queue that admitted the group, for good

    ghost function Marked(): set<M>
      reads `ready
    {
      set m | m in ready && ready[m]
    }

    ghost function Value(): Party<I, M>
      reads `ready
    {
      Party(groupId, members, Marked())
    }

    /** One table carries membership and readiness, and the counter counts its true flags. */
    ghost predicate Valid()
      reads `ready, `readyCount
    {
      && members != [] && Distinct(members)
      && ready.Keys == Elements(members)
      && readyCount == |Marked()|
    }

    constructor (groupId: Option<I>, members: seq<M>, ready: map<M, bool>, sequence: nat)
      requires members != [] && Distinct(members)
      requires ready.Keys == Elements(members) && forall m | m in ready :: !ready[m]
      ensures Valid() && Value() == Party(groupId, members, {})
      ensures this.sequence == sequence && onReady == null && home == null
    {
      this.groupId, this.members, this.ready := groupId, members, ready;
      this.readyCount, this.sequence := 0, sequence;
      onReady, home := null, null;
      new;
      assert Marked() == {};
    }

    /** Group(group_id, members, sequence): a group, or an error for a bare string, an empty
        collection or a repeated member. */
    static method Create(groupId: Option<I>, members: Batch<M>, sequence: nat)
      returns (r: Result<Group<I, M>>)
      ensures r.Success? <==> members.Items? && members.items != [] && Distinct(members.items)
      ensures r.Success? ==>
        && fresh(r.value) && r.value.Valid()
        && r.value.Value() == Party(groupId, members.items, {})
        && r.value.sequence == sequence && r.value.onReady == null && r.value.home == null
    {
      if members.Text? || members.items == [] {
        return Failure;
      }
      var list := members.items;
      var flags: map<M, bool> := map[];
      for i := 0 to |list|
        invariant flags.Keys == Elements(list[..i])
        invariant forall m | m in flags :: !flags[m]
      {
        flags := flags[list[i] := false];
        assert list[..i + 1] == list[..i] + [list[i]];
      }
      assert list[..|list|] == list;
      DistinctSize(list);
      if |flags.Keys| != |list| {
        return Failure;
      }
      var group := new Group(groupId, list, flags, sequence);
      return Success(group);
    }

    /** The O(1) readiness test decides whether every member has been marked. */
    predicate IsReady()
      requires Valid()
      reads this
      ensures IsReady() <==> Value().Ready()
    {
      FullCount(members, Marked());
      readyCount == |members|
    }

    function ReadyMembers(): (r: seq<M>)
      requires Valid()
      reads this
      ensures r == Keep(members, Marked()) && |r| == readyCount
    {
      KeepSize(members, Marked());
      assert forall m | m in members :: m in Elements(members);
      Flagged(members, ready, true)
    }

    function WaitingMembers(): (r: seq<M>)
      requires Valid()
      reads this
      ensures r == Drop(members, Marked())
    {
      assert forall m | m in members :: m in Elements(members);
      Flagged(members, ready, false)
    }

    /** The write of one flag and of the counter. */
    method SetReady(member: M)
      requires Valid() && member in ready && !ready[member]
      modifies `ready, `readyCount
      ensures Valid() && Value() == old(Value()).Mark(member)
      ensures readyCount == |members| <==> Value().Ready()
    {
      ready := ready[member := true];
      readyCount := readyCount + 1;
      assert Marked() == old(Marked()) + {member};
      FullCount(members, Marked());
    }

    /** Held by its queue at the position of its arrival number, or by no queue. */
    ghost predicate AtHome()
      reads this, home
    {
      if home == null then onReady == null
      else sequence < |home.history| && home.history[sequence] == this
    }

    /** Callable by anyone who holds the group, before or after it has departed. Between the
        counter and the callback the queue's index disagrees with its groups; on return it
        agrees again. */
    method MarkReady(member: M) returns (r: Result<bool>)
      requires Valid() && AtHome() && (home != null ==> home.Valid())
      modifies this, home
      ensures Valid() && home == old(home) && sequence == old(sequence) && onReady == old(onReady)
      ensures AtHome()
      ensures r.Success? <==> member in members
      ensures r.Success? ==> Value() == old(Value()).Mark(member) && r.value == Value().Ready()
      ensures r.Failure? ==> Value() == old(Value())
      ensures home != null ==>
        && home.Valid() && home.history == old(home.history)
        && (home.model, Seen(r)) == HeldIx(old(home.model), sequence, member)
    {
      hide WellFormed, Exact, Paid, Lined, Indexed, Heaped, HeldStep;
      assert IsReady() <==> Value().Ready();
      if home != null {
        HeldRefines(home.model, sequence, member);
        UnreadyNotHeaped(home.model, sequence);
      }
      if member !in ready {
        return Failure;
      }
      if ready[member] {
        assert Marked() == Marked() + {member};
        return Success(readyCount == |members|);
      }
      SetReady(member);
      if home != null {
        home.Follow(sequence, member);
      }
      if readyCount != |members| {
        return Success(false);
      }
      if onReady != null {
        onReady.NoteReady(this);
      }
      return Success(true);
    }
  }

  /** An admitted group carries its arrival number, and the callback exactly while it waits in a
      relaxed queue. */
  ghost predicate Enrolled<I(!new), M(!new)>(q: TitoQueue<I, M>, g: Group<I, M>, s: nat, c: State<I, M>)
    requires s < |c.all|
    reads g
  {
    && g.home == q && g.sequence == s
    && g.Valid() && g.Value() == c.all[s]
    && g.onReady == if !q.strictOrder && s in c.waiting then q else null
  }

  ghost predicate Registered<I(!new), M(!new)>(q: TitoQueue<I, M>, history: seq<Group<I, M>>, c: State<I, M>)
    reads history
  {
    && |history| == |c.all| && c.strict == q.strictOrder
    && forall s: nat | s < |history| :: Enrolled(q, history[s], s, c)
  }

  /** Everyone is, except perhaps group `but`, which is in the register once. */
  ghost predicate RegisteredBut<I(!new), M(!new)>(q: TitoQueue<I, M>, history: seq<Group<I, M>>, c: State<I, M>,
                                                  but: nat)
    requires but < |history|
    reads set g | g in history && g != history[but]
  {
    && |history| == |c.all| && c.strict == q.strictOrder
    && forall s: nat | s < |history| && s != but :: history[s] != history[but] && Enrolled(q, history[s], s, c)
  }

  lemma RegisteredMark<I(!new), M(!new)>(q: TitoQueue<I, M>, history: seq<Group<I, M>>, c: State<I, M>, s: nat, m: M)
    requires s < |history| && RegisteredBut(q, history, c, s)
    requires Enrolled(q, history[s], s, c.Mark(s, m))
    ensures Registered(q, history, c.Mark(s, m))
  {
    var c' := c.Mark(s, m);
    forall t: nat | t < |history| ensures Enrolled(q, history[t], t, c') {
      if t != s { assert Enrolled(q, history[t], t, c) && c'.all[t] == c.all[t]; }
    }
  }

  lemma RegisteredWith<I(!new), M(!new)>(q: TitoQueue<I, M>, history: seq<Group<I, M>>, c: State<I, M>, g: Group<I, M>)
    requires Registered(q, history, c) && WellFormed(c)
    requires g.home == q && g.sequence == |history| && g.Valid() && g.Marked() == {}
    requires g.onReady == if q.strictOrder then null else q
    ensures Registered(q, history + [g], c.Enter(g.groupId, g.members))
  {
    var c' := c.Enter(g.groupId, g.members);
    forall s: nat | s < |history|
      ensures (history + [g])[s] == history[s] && c'.all[s] == c.all[s] && (s in c'.waiting <==> s in c.waiting)
    {
    }
  }

  /** The ready table holds the live groups, and the heap the numbers of the model's heap. */
  ghost predicate Heaped<I(!new), M(!new)>(ready: map<nat, Group<I, M>>, history: seq<Group<I, M>>, heap: seq<nat>,
                               model: Index<I, M>)
  {
    && ready.Keys == model.live
    && (forall s | s in ready :: s < |history| && ready[s] == history[s])
    && HeapOf(heap, model.heap)
  }

  lemma EmptyHeap<I(!new), M(!new)>(history: seq<Group<I, M>>, model: Index<I, M>)
    requires model.live == {} && model.heap == {}
    ensures Heaped(map[], history, [], model)
  {
  }

  lemma HeapedWith<I(!new), M(!new)>(ready: map<nat, Group<I, M>>, history: seq<Group<I, M>>, heap: seq<nat>,
                           model: Index<I, M>, group: Group<I, M>, core: State<I, M>)
    requires Heaped(ready, history, heap, model)
    ensures Heaped(ready, history + [group], heap, model.(core := core))
  {
  }

  /** The groups with these arrival numbers. */
  ghost predicate Named<I(!new), M(!new)>(groups: seq<Group<I, M>>, seqnos: seq<nat>, history: seq<Group<I, M>>) {
    && |groups| == |seqnos|
    && forall i | 0 <= i < |groups| :: seqnos[i] < |history| && groups[i] == history[seqnos[i]]
  }

  class TitoQueue<I(==, !new), M(==, !new)> {
    const strictOrder: bool
    var order: seq<Option<I>>                 // _groups, an insertion-ordered dictionary:
    var table: map<Option<I>, Group<I, M>>    //   its key order and its entries
    var memberIndex: map<M, Option<I>>
    var sequence: nat
    var readyHeap: seq<nat>
    var readyGroups: map<nat, Group<I, M>>
    ghost var history: seq<Group<I, M>>       // every group ever admitted
    ghost var core: State<I, M>               // the line, as a value
    ghost var model: Index<I, M>              // the line and its readiness index, as a value

    ghost predicate Shape()
      reads this, history
    {
      && model.core == core
      && sequence == |history| && Registered(this, history, core)
      && Lined(order, table, core, history)
      && Indexed(memberIndex, core)
      && Heaped(readyGroups, history, readyHeap, model)
    }

    ghost predicate Valid()
      reads this, history
    {
      Shape() && Inv(model)
    }

    constructor (strictOrder: bool)
      ensures Valid() && history == [] && model == InitIx(strictOrder)
    {
      this.strictOrder := strictOrder;
      order, table, memberIndex, sequence := [], map[], map[], 0;
      readyHeap, readyGroups := [], map[];
      history, core, model := [], Init(strictOrder), InitIx(strictOrder);
    }

    /** Takes the mark just written in group `s` into the model. */
    ghost method Follow(s: nat, member: M)
      requires s < |history| == sequence == |core.all| && RegisteredBut(this, history, core, s)
      requires Enrolled(this, history[s], s, core.Mark(s, member))
      requires model.core == core
      requires Lined(order, table, core, history) && Indexed(memberIndex, core)
      requires Heaped(readyGroups, history, readyHeap, model)
      modifies `core, `model
      ensures Shape() && model == old(model).(core := old(core).Mark(s, member))
    {
      hide Registered, RegisteredBut, Enrolled, Lined, Indexed, HeapOf;
      RegisteredMark(this, history, core, s, member);
      MarkedTables(order, table, memberIndex, core, history, core.Mark(s, member));
      core := core.Mark(s, member);
      model := model.(core := core);
    }

    /** _note_ready: the notice is recorded on entry, before the test. */
    method NoteReady(group: Group<I, M>)
      requires Shape() && group.sequence < |history| && history[group.sequence] == group
      requires group.sequence in model.heap ==> group.sequence in model.live
      modifies `readyGroups, `readyHeap, `model
      ensures Shape() && model == Note(old(model), group.sequence)
    {
      hide Inv, Registered, Enrolled, Lined, Indexed, HeapOf, IsHeap, Distinct, Exchanged, Log2;
      HeapIs(readyHeap, model.heap);
      ghost var noted := Note(model, group.sequence);
      model := model.(notices := model.notices + [group.sequence]);
      if group.sequence in readyGroups {
        return;
      }
      readyGroups := readyGroups[group.sequence := group];
      ghost var before := readyHeap;
      ghost var moves;
      readyHeap, moves := Heappush(readyHeap, group.sequence);
      PushedHeapOf(before, group.sequence, readyHeap, model.heap);
      model := noted;
    }

    // ---------- what a valid queue's fields say about each other ----------

    /** The member index is the inverse of membership in the waiting groups. */
    lemma IndexInverse(m: M, id: Option<I>)
      requires Valid()
      ensures m in memberIndex && memberIndex[m] == id <==> id in table && m in table[id].members
    {
      hide Exact, Paid, Heaped;
      TableFinds(order, table, core, history, id);
      IndexFinds(order, table, memberIndex, core, history, m);
      if core.Find(id).Some? {
        var s := core.Find(id).value;
        assert Enrolled(this, history[s], s, core) && s in core.WithId(id);
        FindIs(core, s);
      }
      if core.Holder(m).Some? {
        FindIs(core, core.Holder(m).value);
      }
    }

    /** The dictionary is in arrival order, and every number in it has been given out. */
    lemma ArrivalOrder(i: nat, j: nat)
      requires Valid() && i <= j < |order|
      ensures order[i] in table && order[j] in table
      ensures table[order[j]].sequence < sequence
      ensures i < j ==> table[order[i]].sequence < table[order[j]].sequence
    {
      hide Exact, Paid, Heaped, Indexed;
      assert Enrolled(this, history[core.waiting[i]], core.waiting[i], core);
      assert Enrolled(this, history[core.waiting[j]], core.waiting[j], core);
    }

    /** The ready table is exactly the waiting groups that are ready, by number, and the heap
        is a heap without repeats that holds those numbers and few others; under strict order
        there is neither. */
    lemma ReadyTable(s: nat)
      requires Valid()
      ensures s in readyGroups <==>
        && !strictOrder && s < |history|
        && history[s].groupId in table && table[history[s].groupId] == history[s] && history[s].IsReady()
      ensures IsHeap(readyHeap) && Distinct(readyHeap) && (s in readyGroups ==> s in readyHeap)
      ensures |readyHeap| <= 2 * |readyGroups| + 8
      ensures strictOrder ==> readyGroups == map[] && readyHeap == []
    {
      hide Indexed, IsHeap;
      HeapOfSize(readyHeap, model.heap);
      assert |readyGroups| == |readyGroups.Keys|;
      if s < |history| {
        Waits(s);
        assert Enrolled(this, history[s], s, core);
      }
    }

    /** A group is in the dictionary, itself and under its own id, exactly while it waits. */
    lemma Waits(s: nat)
      requires Valid() && s < |history|
      ensures s in core.waiting <==> history[s].groupId in table && table[history[s].groupId] == history[s]
    {
      hide Exact, Paid, Heaped, Indexed;
      var id := history[s].groupId;
      assert Enrolled(this, history[s], s, core);
      TableFinds(order, table, core, history, id);
      if s in core.waiting {
        FindIs(core, s);
      }
      if id in table {
        var t := core.Find(id).value;
        assert Enrolled(this, history[t], t, core);
      }
    }

    // ---------- lookups ----------

    method Find(id: Option<I>) returns (r: Option<Group<I, M>>)
      requires Valid()
      ensures match core.Find(id)
        case None => r == None
        case Some(s) => s < |history| && r == Some(history[s]) && s in core.waiting
      ensures r == if id in table then Some(table[id]) else None
      ensures r.Some? ==> r.value.groupId == id
    {
      hide WellFormed, Exact, Paid, Lined, Indexed, Heaped;
      if core.Find(id).Some? {
        var s := core.Find(id).value;
        assert s in core.WithId(id) && Enrolled(this, history[s], s, core);
      }
      TableFinds(order, table, core, history, id);
      return if id in table then Some(table[id]) else None;
    }

    method GroupOf(member: M) returns (r: Option<Group<I, M>>)
      requires Valid()
      ensures match core.Holder(member)
        case None => r == None
        case Some(s) => s < |history| && r == Some(history[s]) && s in core.waiting
      ensures r.None? <==> member !in memberIndex
    {
      hide WellFormed, Exact, Paid, Registered, Lined, Indexed, Heaped;
      IndexFinds(order, table, memberIndex, core, history, member);
      if member !in memberIndex {
        return None;
      }
      return Some(table[memberIndex[member]]);
    }

    method MarkReady(member: M) returns (r: Result<bool>)
      requires Valid()
      modifies this, set g | g in history
      ensures Valid() && history == old(history)
      ensures model == IndexStep(old(model), Op.MarkReady(member)).0
      ensures Seen(r) == IndexStep(old(model), Op.MarkReady(member)).1
      ensures r.Failure? <==> member !in old(memberIndex)
    {
      hide WellFormed, Exact, Paid, Lined, Indexed, Heaped;
      var group := GroupOf(member);
      if group.None? {
        return Failure;
      }
      r := group.value.MarkReady(member);
    }

    method MarkGroupReady(id: Option<I>) returns (r: Result<bool>)
      requires Valid()
      modifies this, set g | g in history
      ensures Valid() && history == old(history)
      ensures (model, Seen(r)) == IndexStep(old(model), MarkGroup(id))
      ensures r == if id in old(table) then Success(true) else Failure
    {
      hide WellFormed, Exact, Paid, Registered, Lined, Indexed, Heaped, EachIx, First;
      var found := Find(id);
      if found.None? {
        return Failure;
      }
      MarkEach(found.value, core.Find(id).value);
      return Success(true);
    }

    /** The loop of mark_group_ready. */
    method MarkEach(group: Group<I, M>, ghost s: nat)
      requires Valid() && s < |history| && history[s] == group
      modifies this, set g | g in history
      ensures Valid() && history == old(history)
      ensures s < |old(core).all| && model == EachIx(old(model), s, old(core).all[s].members)
    {
      hide WellFormed, Exact, Paid, Lined, Indexed, Heaped;
      assert Enrolled(this, group, s, core);
      for i := 0 to |group.members|
        invariant Valid() && history == old(history)
        invariant EachIx(model, s, group.members[i..]) == EachIx(old(model), s, group.members)
      {
        assert Enrolled(this, group, s, core);
        assert group.members[i..][1..] == group.members[i + 1..];
        var _ := group.MarkReady(group.members[i]);
      }
    }

    // ---------- departures ----------

    method Unlink(group: Group<I, M>, ghost s: nat, ghost how: How)
      requires Registered(this, history, core) && s < |history| && history[s] == group
      modifies group`onReady
      ensures Registered(this, history, core.Depart([s], how))
    {
      group.onReady := null;
      assert Elements([s]) == {s};
    }

    method CompactReadyHeap()
      requires Heaped(readyGroups, history, readyHeap, model)
      modifies `readyHeap, `model
      ensures Heaped(readyGroups, history, readyHeap, model) && model == Compact(old(model))
      ensures |old(readyHeap)| <= 2 * |readyGroups| + 8 ==> readyHeap == old(readyHeap) && model == old(model)
      ensures |old(readyHeap)| > 2 * |readyGroups| + 8 ==>
        && Distinct(readyHeap) && Elements(readyHeap) == readyGroups.Keys
        && model == old(model).(heap := readyGroups.Keys, rebuilt := old(model.rebuilt) + |readyHeap|)
    {
      assert |readyGroups| == |readyGroups.Keys|;
      HeapOfSize(readyHeap, model.heap);
      if |readyHeap| <= 2 * |readyGroups.Keys| + 8 {
        return;
      }
      var list := ListOf(readyGroups.Keys);
      ghost var moves;
      readyHeap, moves := Heapify(list);
      SameElements(list, readyHeap);
      DistinctSize(readyHeap);
      model := Compact(model);
    }

    method LeaveLine(group: Group<I, M>, ghost how: How)
      requires Valid() && group.sequence in core.waiting
      requires group.sequence < |history| && history[group.sequence] == group
      modifies `order, `table, `memberIndex
      ensures Lined(order, table, core.Depart([group.sequence], how), history)
      ensures Indexed(memberIndex, core.Depart([group.sequence], how))
      ensures table == old(table) - {group.groupId}
    {
      hide Exact, Paid, Lined, Indexed, Heaped, Drop, State.Depart;
      assert Enrolled(this, group, group.sequence, core);
      LinedWithout(order, table, core, history, group.sequence, how);
      IndexedWithout(memberIndex, core, group.sequence, how);
      order := Without(order, group.groupId);
      table := table - {group.groupId};
      memberIndex := Tables.DeleteAll(memberIndex, group.members);
    }

    /** _remove: the group leaves every index at once. */
    method Remove(group: Group<I, M>, ghost how: How)
      requires Valid() && group.sequence in core.waiting
      requires group.sequence < |history| && history[group.sequence] == group
      modifies this, group`onReady
      ensures Shape() && history == old(history)
      ensures model == RemoveIx(old(model), group.sequence, how)
      ensures table == old(table) - {group.groupId}
    {
      hide Inv, Registered, Enrolled, Lined, Indexed, HeapOf, Drop, Compact, State.Depart;
      ghost var s := group.sequence;
      LeaveLine(group, how);
      Unlink(group, s, how);
      core := core.Depart([s], how);
      model := model.(core := core);
      Retire(group.sequence);
    }

    method Retire(s: nat)
      requires Heaped(readyGroups, history, readyHeap, model)
      modifies `readyGroups, `readyHeap, `model
      ensures Heaped(readyGroups, history, readyHeap, model) && model.core == old(model.core)
      ensures var m := old(model);
        model == if s in m.live then Compact(m.(live := m.live - {s}, retired := m.retired + 1)) else m
    {
      if s in readyGroups {
        readyGroups := readyGroups - {s};
        model := model.(live := model.live - {s}, retired := model.retired + 1);
        CompactReadyHeap();
      }
    }

    method Cancel(id: Option<I>) returns (r: Result<Group<I, M>>)
      requires Valid()
      modifies this, set g | g in history
      ensures Valid() && history == old(history)
      ensures model == IndexStep(old(model), Op.Cancel(id)).0
      ensures match old(core).Find(id)
        case None => r == Failure
        case Some(s) => s < |history| && r == Success(history[s])
      ensures r == if id in old(table) then Success(old(table)[id]) else Failure
      ensures id !in table
    {
      hide WellFormed, Exact, Paid, Lined, Indexed, Heaped, Drop, First, Compact, Conserved;
      var found := Find(id);
      if found.None? {
        return Failure;
      }
      RemoveRefines(model, found.value.sequence, Withdrawn);
      Remove(found.value, Withdrawn);
      return Success(found.value);
    }

    method Peek() returns (r: Option<Group<I, M>>)
      requires Valid()
      modifies `readyHeap, `model
      ensures Valid()
      ensures model == PeekIx(old(model)).0
      ensures match PeekIx(old(model)).1
        case None => r == None
        case Some(s) => s < |history| && r == Some(history[s])
    {
      hide WellFormed, Exact, Paid, Lined, Indexed, Heaped, Settle, First;
      PeekRefines(model);
      if strictOrder {
        r := PeekHead();
      } else {
        r := PeekHeap();
      }
    }

    method PeekHead() returns (r: Option<Group<I, M>>)
      requires Shape() && strictOrder
      ensures match core.Next()
        case None => r == None
        case Some(s) => s < |history| && r == Some(history[s])
    {
      if |order| == 0 {
        return None;
      }
      hide Heaped, Indexed, Distinct;
      var head := table[order[0]];
      return if head.IsReady() then Some(head) else None;
    }

    /** The lazy deletion loop: stale entries go only while they are at the top. */
    method PeekHeap() returns (r: Option<Group<I, M>>)
      requires Heaped(readyGroups, history, readyHeap, model)
      modifies `readyHeap, `model
      ensures Heaped(readyGroups, history, readyHeap, model)
      ensures model == Settle(old(model)) && model.core == old(model.core)
      ensures model.pops == old(model.pops) + (|old(readyHeap)| - |readyHeap|)
      ensures r.None? <==> model.heap == {}
      ensures r.Some? ==> Min(model.heap) < |history| && r == Some(history[Min(model.heap)])
    {
      while |readyHeap| > 0
        invariant Heaped(readyGroups, history, readyHeap, model)
        invariant Settle(model) == Settle(old(model)) && model.core == old(model.core)
        invariant model.pops + |readyHeap| == old(model.pops) + |old(readyHeap)|
        decreases |readyHeap|
      {
        hide IsHeap, Distinct;
        TopIsMin(readyHeap);
        if readyHeap[0] in readyGroups {
          return Some(readyGroups[readyHeap[0]]);
        }
        PopStale();
      }
      return None;
    }

    /** heappop, on an entry whose group has left. */
    method PopStale()
      requires Heaped(readyGroups, history, readyHeap, model)
      requires readyHeap != [] && readyHeap[0] !in readyGroups
      modifies `readyHeap, `model
      ensures Heaped(readyGroups, history, readyHeap, model) && |readyHeap| == |old(readyHeap)| - 1
      ensures model == old(model).(heap := old(model.heap) - {old(readyHeap)[0]}, pops := old(model.pops) + 1)
    {
      hide IsHeap, Distinct, Exchanged, Log2;
      ghost var before := readyHeap;
      ghost var moves;
      readyHeap, moves := Heappop(readyHeap);
      PoppedHeapOf(before, readyHeap, model.heap);
      model := model.(heap := model.heap - {before[0]}, pops := model.pops + 1);
    }

    method Release() returns (r: Option<Group<I, M>>)
      requires Valid()
      modifies this, set g | g in history
      ensures Valid() && history == old(history)
      ensures model == ReleaseIx(old(model)).0
      ensures match ReleaseIx(old(model)).1
        case None => r == None
        case Some(s) => s < |history| && r == Some(history[s])
    {
      hide WellFormed, Exact, Paid, Lined, Indexed, Heaped;
      PeekRefines(model);
      ReleaseRefines(model);
      var group := Peek();
      if group.None? {
        return None;
      }
      NextDeparts(core, group.value.sequence);
      Remove(group.value, Left);
      return group;
    }

    method ReleaseAll() returns (released: seq<Group<I, M>>)
      requires Valid()
      modifies this, set g | g in history
      ensures Valid() && history == old(history)
      ensures var (last, gone) := DrainIx(old(model), |old(core).waiting| + 1);
        model == last && Named(released, gone, history)
    {
      hide WellFormed, Exact, Paid, Registered, Lined, Indexed, Heaped, ReleaseIx, DrainIx;
      released := [];
      ghost var gone: seq<nat> := [];
      ghost var turns := |core.waiting| + 1;
      assert gone + DrainIx(model, turns).1 == DrainIx(model, turns).1;
      while true
        invariant Valid() && history == old(history) && Named(released, gone, history)
        invariant turns == |core.waiting| + 1
        invariant var (last, rest) := DrainIx(model, turns);
          DrainIx(old(model), |old(core).waiting| + 1) == (last, gone + rest)
        decreases turns
      {
        ReleaseTurn(model);
        ghost var next := ReleaseIx(model).1;
        var group := Release();
        if group.None? {
          return;
        }
        turns := turns - 1;
        ghost var rest := DrainIx(model, turns).1;
        assert gone + ([next.value] + rest) == gone + [next.value] + rest;
        released, gone := released + [group.value], gone + [next.value];
      }
    }

    method Clear() returns (cleared: seq<Group<I, M>>)
      requires Valid()
      modifies this, set g | g in history
      ensures Valid() && history == old(history)
      ensures model == ClearIx(old(model))
      ensures order == [] && table == map[] && memberIndex == map[] && readyGroups == map[] && readyHeap == []
      ensures Named(cleared, old(core).waiting, history)
    {
      hide Inv, Registered, Enrolled, Lined, Indexed, Heaped, Drop, Named, State.Depart;
      cleared := Groups();
      ClearRefines(model);
      EmptyTables(order, table, core, history, ClearIx(model).core);
      EmptyHeap(history, ClearIx(model));
      UnlinkAll(cleared, core.waiting);
      order, table, memberIndex := [], map[], map[];
      readyGroups, readyHeap := map[], [];
      model := ClearIx(model);
      core := model.core;
    }

    /** Waiting groups, in arrival order. */
    function Groups(): (r: seq<Group<I, M>>)
      requires Shape()
      reads this, history
      ensures Named(r, core.waiting, history)
    {
      seq(|order|, i requires 0 <= i < |order| && order[i] in table reads this => table[order[i]])
    }

    method UnlinkAll(groups: seq<Group<I, M>>, ghost seqnos: seq<nat>)
      requires Registered(this, history, core) && Named(groups, seqnos, history)
      requires core.waiting == seqnos
      modifies (set g | g in history)`onReady
      ensures Registered(this, history, core.Depart(seqnos, Flushed))
    {
      for i := 0 to |groups|
        invariant forall g | g in history :: g.onReady == old(g.onReady) || g.onReady == null
        invariant forall j | 0 <= j < i :: groups[j].onReady == null
      {
        groups[i].onReady := null;
      }
    }

    method JoinLine(group: Group<I, M>)
      requires WellFormed(core) && core.CanAdmit(group.groupId, group.members) && group.groupId !in table
      requires Lined(order, table, core, history) && Indexed(memberIndex, core)
      modifies `order, `table, `memberIndex
      ensures Lined(order, table, core.Enter(group.groupId, group.members), history + [group])
      ensures Indexed(memberIndex, core.Enter(group.groupId, group.members))
    {
      hide WellFormed, Lined, Indexed, State.CanAdmit;
      LinedWith(order, table, core, history, group.groupId, group.members, group);
      IndexedWith(memberIndex, core, group.groupId, group.members);
      order, table := order + [group.groupId], table[group.groupId := group];
      memberIndex := Tables.AddAll(memberIndex, group.groupId, group.members);
    }

    /** Gives a checked group its arrival number, its callback and its place in every index. */
    method Publish(group: Group<I, M>)
      requires Valid() && core.CanAdmit(group.groupId, group.members) && group.groupId !in table
      requires group !in history && group.Valid() && group.Marked() == {}
      modifies this, group
      ensures Shape() && history == old(history) + [group]
      ensures model == old(model).(core := old(core).Enter(group.groupId, group.members))
    {
      hide WellFormed, Exact, Paid, Registered, Enrolled, Lined, Indexed, Heaped, State.CanAdmit;
      ghost var core' := core.Enter(group.groupId, group.members);
      HeapedWith(readyGroups, history, readyHeap, model, group, core');
      group.sequence := sequence;
      sequence := sequence + 1;
      JoinLine(group);
      group.onReady := if strictOrder then null else this;
      group.home := this;
      RegisteredWith(this, history, core, group);
      history := history + [group];
      core := core';
      model := model.(core := core);
    }

    method Admit(id: Option<I>, members: Batch<M>) returns (r: Result<Group<I, M>>)
      requires Valid()
      modifies this
      ensures Valid()
      ensures r.Success? <==> members.Items? && old(core).CanAdmit(id, members.items)
      ensures r.Success? ==>
        && model == old(model).(core := old(core).Enter(id, members.items))
        && fresh(r.value) && history == old(history) + [r.value]
      ensures r.Failure? ==> model == old(model) && history == old(history)
    {
      var built := Group.Create(id, members, 0);
      if built.Failure? {
        return Failure;
      }
      var group := built.value;
      AdmissionTest(id, members.items);
      hide Inv, Registered, Enrolled, Lined, Indexed, Heaped, State.CanAdmit;
      if id in table {
        return Failure;
      }
      if exists m :: m in group.members && m in memberIndex {
        return Failure;
      }
      AdmitRefines(model, id, members.items);
      Publish(group);
      return Success(group);
    }

    lemma AdmissionTest(id: Option<I>, items: seq<M>)
      requires Valid()
      ensures core.CanAdmit(id, items) <==>
        items != [] && Distinct(items) && id !in table && forall m | m in items :: m !in memberIndex
    {
      hide WellFormed, Exact, Paid, Registered, Lined, Heaped, Distinct;
      TableFinds(order, table, core, history, id);
    }
  }

  /** The keys of a dictionary, in some order. */
  method ListOf(keys: set<nat>) returns (list: seq<nat>)
    ensures Distinct(list) && Elements(list) == keys
  {
    list := [];
    var rest := keys;
    while rest != {}
      invariant rest <= keys && Elements(list) == keys - rest && Distinct(list)
      decreases rest
    {
      var x :| x in rest;
      PushDistinct(list, x);
      list := list + [x];
      rest := rest - {x};
    }
  }

  lemma SameElements(xs: seq<nat>, ys: seq<nat>)
    requires multiset(xs) == multiset(ys) && Distinct(xs)
    ensures Distinct(ys) && Elements(ys) == Elements(xs)
  {
    forall x: nat ensures multiset(ys)[x] <= 1 { DistinctCount(xs, x); }
    CountsDistinct(ys);
    assert forall x :: x in xs <==> x in multiset(xs);
    assert forall x :: x in ys <==> x in multiset(ys);
  }
}
