/** The C queue (examples/tito_example.c): groups are structs in a fixed array, names are
terminated buffers, and a departure shifts the tail of the array down. */
module BoundedArray {
  import opened Lists
  import opened Discipline
  import opened Guarantees

  const MAX_GROUPS: nat := 16
  const MAX_MEMBERS: nat := 8
  const MAX_NAME: nat := 32

  /** A C string, without its terminator. */
  type Name = s: seq<char> | '\0' !in s

  // ---------- name buffers ----------

  /** What `strcmp` sees of a buffer. */
  function TextOf(buf: seq<char>): (r: Name)
    ensures |r| <= |buf|
  {
    if buf == [] || buf[0] == '\0' then [] else [buf[0]] + TextOf(buf[1..])
  }

  predicate NameFits(name: Name) {
    |name| < MAX_NAME
  }

  lemma {:induction false} TextEnds(buf: seq<char>, i: nat)
    requires i < |buf| && buf[i] == '\0' && '\0' !in buf[..i]
    ensures TextOf(buf) == buf[..i]
  {
    if i > 0 {
      assert buf[0] == buf[..i][0];
      assert buf[1..][..i - 1] == buf[..i][1..];
      TextEnds(buf[1..], i - 1);
      assert buf[..i] == [buf[0]] + buf[..i][1..];
    }
  }

  /** What a buffer keeps of a name. */
  function Stored(name: Name): (r: Name) {
    if NameFits(name) then name else name[..MAX_NAME - 1]
  }

  /** The bounded copy always terminates the buffer and stores as much of the name as fits. */
  method CopyName(dst: array<char>, src: Name)
    requires dst.Length == MAX_NAME
    modifies dst
    ensures TextOf(dst[..]) == Stored(src) && '\0' in dst[..]
  {
    var i := 0;
    while i < |src| && i + 1 < MAX_NAME
      invariant i <= |src| && i < MAX_NAME && dst[..i] == src[..i]
    {
      dst[i] := src[i];
      i := i + 1;
    }
    dst[i] := '\0';
    assert dst[..][i] == '\0' && dst[..][..i] == src[..i];
    TextEnds(dst[..], i);
    assert src[..i] == Stored(src);
  }

  /** Names the admission check accepts stay distinct in their buffers; in general two names
      collide exactly when they agree on the part that fits. */
  lemma StoredFaithful(a: Name, b: Name)
    ensures |Stored(a)| == (if |a| <= 31 then |a| else 31) && Stored(a) <= a
    ensures NameFits(a) ==> Stored(a) == a
    ensures NameFits(a) && NameFits(b) ==> (Stored(a) == Stored(b) <==> a == b)
    ensures Stored(a) == Stored(b) <==> (a == b ||
      (|a| >= MAX_NAME - 1 && |b| >= MAX_NAME - 1 && a[..MAX_NAME - 1] == b[..MAX_NAME - 1]))
  {
    if NameFits(a) && |a| == MAX_NAME - 1 { assert a[..MAX_NAME - 1] == a; }
    if NameFits(b) && |b| == MAX_NAME - 1 { assert b[..MAX_NAME - 1] == b; }
  }

  // ---------- groups ----------

  datatype CGroup = CGroup(
    id: seq<char>,
    members: seq<seq<char>>,
    ready: seq<bool>,
    memberCount: nat,
    readyCount: nat)

  /** The struct is laid out as declared. */
  predicate Sized(g: CGroup) {
    |g.id| == MAX_NAME && |g.members| == MAX_MEMBERS && |g.ready| == MAX_MEMBERS
    && forall i | 0 <= i < MAX_MEMBERS :: |g.members[i]| == MAX_NAME
  }

  function Names(g: CGroup): (r: seq<Name>)
    requires g.memberCount <= |g.members|
    ensures |r| == g.memberCount
    ensures forall i | 0 <= i < |r| :: r[i] == TextOf(g.members[i])
  {
    seq(g.memberCount, i requires 0 <= i < |g.members| => TextOf(g.members[i]))
  }

  function Marked(g: CGroup): (r: set<Name>)
    requires g.memberCount <= |g.members| && g.memberCount <= |g.ready|
    ensures r <= Elements(Names(g))
  {
    assert forall i | 0 <= i < g.memberCount :: Names(g)[i] in Names(g);
    set i | 0 <= i < g.memberCount && g.ready[i] :: TextOf(g.members[i])
  }

  function Value(g: CGroup): Party<Name, Name>
    requires g.memberCount <= |g.members| && g.memberCount <= |g.ready|
  {
    Party(Some(TextOf(g.id)), Names(g), Marked(g))
  }

  ghost predicate ValidGroup(g: CGroup) {
    && Sized(g) && 0 < g.memberCount <= MAX_MEMBERS
    && Distinct(Names(g)) && g.readyCount == |Marked(g)|
  }

  method GroupIsReady(g: CGroup) returns (r: bool)
    requires ValidGroup(g)
    ensures r <==> Value(g).Ready()
  {
    FullCount(Names(g), Marked(g));
    return g.readyCount == g.memberCount;
  }

  /** The position of a member, or -1. */
  method IndexIn(g: CGroup, member: Name) returns (r: int)
    requires ValidGroup(g)
    ensures -1 <= r < g.memberCount
    ensures r < 0 <==> member !in Names(g)
    ensures r >= 0 ==> Names(g)[r] == member
  {
    for i := 0 to g.memberCount
      invariant forall j | 0 <= j < i :: Names(g)[j] != member
    {
      if TextOf(g.members[i]) == member {
        assert Names(g)[i] == member;
        return i;
      }
    }
    return -1;
  }

  /** group_mark_ready: 1 if the whole group is now ready, 0 if not, -1 for a stranger. */
  method GroupMarkReady(g: CGroup, member: Name) returns (g': CGroup, r: int)
    requires ValidGroup(g)
    ensures ValidGroup(g')
    ensures r < 0 <==> member !in Names(g)
    ensures -1 <= r <= 1 && (r < 0 ==> g' == g)
    ensures r >= 0 ==> Value(g') == Value(g).Mark(member) && r == if Value(g').Ready() then 1 else 0
  {
    var i := IndexIn(g, member);
    if i < 0 {
      return g, -1;
    }
    g' := g;
    if !g.ready[i] {
      g' := g.(ready := g.ready[i := true], readyCount := g.readyCount + 1);
    }
    Flagged(g, i, g');
    var ready := GroupIsReady(g');
    r := if ready then 1 else 0;
  }

  lemma Flagged(g: CGroup, i: nat, g': CGroup)
    requires ValidGroup(g) && i < g.memberCount
    requires g' == if g.ready[i] then g else g.(ready := g.ready[i := true], readyCount := g.readyCount + 1)
    ensures ValidGroup(g') && Value(g') == Value(g).Mark(Names(g)[i])
  {
    hide Names, Marked, Distinct;
    assert g.ready[i] ==> g.ready[i := true] == g.ready;
    FlagShape(g, i, g');
    FlagMarks(g, i, g');
    MarkedAt(g, i);
    assert !g.ready[i] ==> |Marked(g) + {Names(g)[i]}| == |Marked(g)| + 1;
    assert g.ready[i] ==> Marked(g) + {Names(g)[i]} == Marked(g);
  }

  lemma FlagShape(g: CGroup, i: nat, g': CGroup)
    requires Sized(g) && i < g.memberCount <= MAX_MEMBERS
    requires g'.id == g.id && g'.members == g.members && g'.memberCount == g.memberCount
    requires g'.ready == g.ready[i := true]
    ensures Sized(g') && Names(g') == Names(g)
  {
  }

  lemma FlagMarks(g: CGroup, i: nat, g': CGroup)
    requires ValidGroup(g) && i < g.memberCount && Sized(g') && g'.memberCount == g.memberCount
    requires g'.members == g.members && g'.ready == g.ready[i := true]
    ensures Marked(g') == Marked(g) + {Names(g)[i]}
  {
    var m := Names(g)[i];
    forall x | x in Marked(g) ensures x in Marked(g') {
      var j :| 0 <= j < g.memberCount && g.ready[j] && TextOf(g.members[j]) == x;
      assert g'.ready[j];
    }
    forall x | x in Marked(g') && x != m ensures x in Marked(g) {
      var j :| 0 <= j < g.memberCount && g'.ready[j] && TextOf(g.members[j]) == x;
      assert g.ready[j];
    }
    assert g'.ready[i] && TextOf(g.members[i]) == m;
  }

  lemma MarkedAt(g: CGroup, i: nat)
    requires ValidGroup(g) && i < g.memberCount
    ensures Names(g)[i] in Marked(g) <==> g.ready[i]
  {
    if Names(g)[i] in Marked(g) {
      var j :| 0 <= j < g.memberCount && g.ready[j] && TextOf(g.members[j]) == Names(g)[i];
      assert Names(g)[j] == Names(g)[i];
    }
  }

  // ---------- the queue ----------

  /** Slot by slot, the array holds the waiting groups in arrival order. */
  ghost predicate Slots(groups: seq<CGroup>, core: State<Name, Name>) {
    && |groups| == |core.waiting|
    && forall g | 0 <= g < |groups| ::
         && ValidGroup(groups[g])
         && core.waiting[g] < |core.all| && core.all[core.waiting[g]] == Value(groups[g])
  }

  class CQueue {
    const groups: array<CGroup>
    var groupCount: nat
    const strictOrder: bool
    ghost var core: State<Name, Name>

    ghost predicate Valid()
      reads this, groups
    {
      && groups.Length == MAX_GROUPS && groupCount <= MAX_GROUPS
      && (forall g | 0 <= g < MAX_GROUPS :: Sized(groups[g]))
      && core.strict == strictOrder
      && WellFormed(core) && Slots(groups[..groupCount], core)
    }

    /** tito_init, on an array of unknown contents. */
    constructor (strictOrder: bool, groups: array<CGroup>)
      requires groups.Length == MAX_GROUPS && forall g | 0 <= g < MAX_GROUPS :: Sized(groups[g])
      ensures Valid() && this.groups == groups && core == Init(strictOrder)
    {
      this.groups, groupCount, this.strictOrder := groups, 0, strictOrder;
      core := Init(strictOrder);
    }

    lemma SlotOf(g: nat)
      requires Valid() && g < groupCount
      ensures var s := core.waiting[g];
        && s in core.waiting && s < |core.all| && core.all[s] == Value(groups[g]) && ValidGroup(groups[g])
    {
      assert groups[..groupCount][g] == groups[g];
    }

    /** No id and no name is stored twice, within a group or across groups. */
    lemma StoredOnce(g: nat, h: nat)
      requires Valid() && g < h < groupCount
      ensures ValidGroup(groups[g]) && Distinct(Names(groups[g]))
      ensures ValidGroup(groups[h]) && TextOf(groups[g].id) != TextOf(groups[h].id)
      ensures forall i, j | 0 <= i < groups[g].memberCount && 0 <= j < groups[h].memberCount ::
        TextOf(groups[g].members[i]) != TextOf(groups[h].members[j])
    {
      SlotOf(g);
      SlotOf(h);
      var a, b := core.all[core.waiting[g]], core.all[core.waiting[h]];
      assert core.waiting[g] != core.waiting[h];
      forall i, j | 0 <= i < groups[g].memberCount && 0 <= j < groups[h].memberCount
        ensures TextOf(groups[g].members[i]) != TextOf(groups[h].members[j])
      {
        assert a.members[i] in Elements(a.members) && b.members[j] in Elements(b.members);
      }
    }

    /** The slot of the group with this id, or -1. */
    method FindSlot(id: Name) returns (r: int)
      requires Valid()
      ensures -1 <= r < groupCount
      ensures r < 0 <==> core.Find(Some(id)).None?
      ensures r >= 0 ==> core.Find(Some(id)) == Some(core.waiting[r])
    {
      hide WellFormed, Slots;
      SlotsCount();
      for g := 0 to groupCount
        invariant forall h | 0 <= h < g :: core.waiting[h] !in core.WithId(Some(id))
      {
        SlotOf(g);
        if TextOf(groups[g].id) == id {
          FindIs(core, core.waiting[g]);
          return g;
        }
      }
      return -1;
    }

    lemma SlotsCount()
      requires Valid()
      ensures |core.waiting| == groupCount
    {
    }

    /** tito_group_of: the slot of the group with this member, or -1. */
    method GroupOf(member: Name) returns (r: int)
      requires Valid()
      ensures -1 <= r < groupCount
      ensures r < 0 <==> core.Holder(member).None?
      ensures r >= 0 ==> core.Holder(member) == Some(core.waiting[r]) && member in Names(groups[r])
    {
      hide WellFormed, Slots;
      SlotsCount();
      for g := 0 to groupCount
        invariant forall h | 0 <= h < g :: core.waiting[h] !in core.WithMember(member)
      {
        SlotOf(g);
        var i := IndexIn(groups[g], member);
        if i >= 0 {
          FindIs(core, core.waiting[g]);
          return g;
        }
      }
      return -1;
    }

    /** Replaces the group in one slot by itself with more marks. */
    method Store(g: nat, group: CGroup, ghost marked: set<Name>)
      requires Valid() && g < groupCount && ValidGroup(group)
      requires var p := Value(groups[g]);
        p.marked <= marked <= Elements(p.members) && Value(group) == p.(marked := marked)
      modifies this, groups
      ensures Valid()
      ensures var s := old(core).waiting[g];
        s < |old(core).all| && core == old(core).(all := old(core).all[s := old(core).all[s].(marked := marked)])
    {
      SlotOf(g);
      ghost var s := core.waiting[g];
      RemarkKeeps(core, s, marked);
      StoreSlots(groups[..groupCount], core, g, group, marked);
      groups[g] := group;
      core := core.(all := core.all[s := core.all[s].(marked := marked)]);
      assert groups[..groupCount] == old(groups[..groupCount])[g := group];
    }

    /** tito_mark_ready: 1 if the member's group is now ready, 0 if not, -1 if not queued. */
    method MarkReady(member: Name) returns (r: int)
      requires Valid()
      modifies this, groups
      ensures Valid()
      ensures core == Step(old(core), Op.MarkReady(member)).0
      ensures -1 <= r <= 1
      ensures Step(old(core), Op.MarkReady(member)).1 == if r < 0 then Rejected else Flag(r == 1)
    {
      hide WellFormed, Slots, Names, Marked, Distinct, First;
      var g := GroupOf(member);
      if g < 0 {
        return -1;
      }
      SlotOf(g);
      var group;
      group, r := GroupMarkReady(groups[g], member);
      Store(g, group, Marked(groups[g]) + {member});
    }

    /** group_mark_ready through a pointer into slot `g`: it marks whichever group is there now. */
    method MarkSlot(g: nat, member: Name) returns (r: int)
      requires Valid() && g < groupCount
      modifies this, groups
      ensures Valid() && g < |old(core).waiting|
      ensures core == Step(old(core), MarkHeld(old(core).waiting[g], member)).0
      ensures -1 <= r <= 1
      ensures Step(old(core), MarkHeld(old(core).waiting[g], member)).1 == if r < 0 then Rejected else Flag(r == 1)
    {
      hide WellFormed, Slots, Names, Marked, Distinct, First;
      SlotsCount();
      SlotOf(g);
      var group;
      group, r := GroupMarkReady(groups[g], member);
      if r >= 0 {
        Store(g, group, Marked(groups[g]) + {member});
      }
    }

    /** tito_mark_group_ready: 0, or -1 if not queued. */
    method MarkGroupReady(id: Name) returns (r: int)
      requires Valid()
      modifies this, groups
      ensures Valid()
      ensures core == Step(old(core), MarkGroup(Some(id))).0
      ensures -1 <= r <= 0
      ensures Step(old(core), MarkGroup(Some(id))).1 == if r < 0 then Rejected else Flag(true)
    {
      hide WellFormed, Slots;
      var g := FindSlot(id);
      if g < 0 {
        return -1;
      }
      SlotOf(g);
      var group := MarkAll(groups[g]);
      Store(g, group, Elements(Names(groups[g])));
      return 0;
    }

    /** The slot of the group that would leave next, or -1. */
    method PeekIndex() returns (r: int)
      requires Valid()
      ensures -1 <= r < groupCount
      ensures r < 0 <==> core.Next().None?
      ensures r >= 0 ==> core.Next() == Some(core.waiting[r])
    {
      hide WellFormed, Slots;
      SlotsCount();
      if groupCount == 0 {
        return -1;
      }
      if strictOrder {
        SlotOf(0);
        var ready := GroupIsReady(groups[0]);
        return if ready then 0 else -1;
      }
      for g := 0 to groupCount
        invariant forall h | 0 <= h < g :: core.waiting[h] !in core.ReadySet()
      {
        SlotOf(g);
        var ready := GroupIsReady(groups[g]);
        if ready {
          FirstAt(core.waiting, core.ReadySet(), g);
          return g;
        }
      }
      return -1;
    }

    /** tito_remove_at: the tail moves down one slot. */
    method RemoveAt(index: nat, ghost how: How)
      requires Valid() && index < groupCount && WellFormed(core.Depart([core.waiting[index]], how))
      modifies this, groups
      ensures Valid()
      ensures core == old(core).Depart([old(core).waiting[index]], how)
    {
      hide WellFormed, Slots, Sized, State.Depart;
      SlotsCount();
      ghost var before := groups[..groupCount];
      ShiftDown(index);
      groupCount := groupCount - 1;
      core := core.Depart([core.waiting[index]], how);
      assert groups[..groupCount] == before[..index] + before[index + 1..];
      WithoutSlot(before, old(core), index, how);
      DepartStays(old(core), [old(core).waiting[index]], how);
    }

    method ShiftDown(index: nat)
      requires groups.Length == MAX_GROUPS && groupCount <= MAX_GROUPS && index < groupCount
      requires forall g | 0 <= g < MAX_GROUPS :: Sized(groups[g])
      modifies groups
      ensures forall g | 0 <= g < MAX_GROUPS :: Sized(groups[g])
      ensures groups[..groupCount - 1] == old(groups[..groupCount])[..index] + old(groups[..groupCount])[index + 1..]
      ensures forall g | groupCount <= g < MAX_GROUPS :: groups[g] == old(groups[g])
      ensures groups[groupCount - 1] == old(groups[groupCount - 1])
    {
      var g := index;
      while g < groupCount - 1
        invariant index <= g <= groupCount - 1
        invariant forall h | 0 <= h < MAX_GROUPS :: Sized(groups[h])
        invariant forall h | 0 <= h < index || g <= h < MAX_GROUPS :: groups[h] == old(groups[h])
        invariant forall h | index <= h < g :: groups[h] == old(groups[h + 1])
      {
        groups[g] := groups[g + 1];
        g := g + 1;
      }
    }

    /** tito_release: the departed group, or None if none can. */
    method Release() returns (out: Option<CGroup>)
      requires Valid()
      modifies this, groups
      ensures Valid()
      ensures core == Step(old(core), Op.Release).0
      ensures out.None? <==> old(core).Next().None?
      ensures out.Some? ==>
        && ValidGroup(out.value)
        && var s := old(core).Next().value; s < |old(core).all| && Value(out.value) == old(core).all[s]
    {
      hide WellFormed, Slots, Names, Marked, Drop, First;
      var index := PeekIndex();
      if index < 0 {
        return None;
      }
      SlotOf(index);
      SlotsCount();
      out := Some(groups[index]);
      NextDeparts(core, core.waiting[index]);
      RemoveAt(index, Left);
    }

    /** tito_release_all: as many as leave in order, up to the capacity of the output. */
    method ReleaseAll(out: array<CGroup>, capacity: int) returns (count: nat)
      requires Valid() && out != groups && capacity <= out.Length
      modifies this, groups, out
      ensures Valid()
      ensures count <= |old(core).Departing()|
      ensures core == old(core).Depart(old(core).Departing()[..count], Left)
      ensures count == |old(core).Departing()| || count == if capacity < 0 then 0 else capacity
      ensures count <= if capacity < 0 then 0 else capacity
      ensures forall i | 0 <= i < count ::
        && ValidGroup(out[i])
        && var s := old(core).Departing()[i]; s < |old(core).all| && Value(out[i]) == old(core).all[s]
    {
      hide WellFormed, Slots, Prefix, Keep, Drop, First, State.Departing, State.Next, Names, Marked;
      count := 0;
      ghost var gone: seq<nat> := [];
      assert gone + core.Departing() == core.Departing();
      DepartNobody(core, Left);
      while count < capacity
        invariant Valid() && |gone| == count <= if capacity < 0 then 0 else capacity
        invariant old(core).Departing() == gone + core.Departing()
        invariant core == old(core).Depart(gone, Left)
        invariant forall i | 0 <= i < count ::
          ValidGroup(out[i]) && gone[i] < |old(core).all| && Value(out[i]) == old(core).all[gone[i]]
        decreases capacity - count
      {
        DrainOn(old(core), gone, core);
        ghost var next := core.Next();
        var departed := Release();
        if departed.None? {
          break;
        }
        out[count] := departed.value;
        gone := gone + [next.value];
        count := count + 1;
      }
      assert old(core).Departing()[..count] == gone;
    }

    /** tito_cancel: the withdrawn group, or an error. */
    method Cancel(id: Name) returns (out: Result<CGroup>)
      requires Valid()
      modifies this, groups
      ensures Valid()
      ensures core == Step(old(core), Op.Cancel(Some(id))).0
      ensures out.Failure? <==> old(core).Find(Some(id)).None?
      ensures out.Success? ==>
        && ValidGroup(out.value)
        && var s := old(core).Find(Some(id)).value; s < |old(core).all| && Value(out.value) == old(core).all[s]
    {
      hide WellFormed, Slots;
      var g := FindSlot(id);
      if g < 0 {
        return Failure;
      }
      SlotOf(g);
      SlotsCount();
      out := Success(groups[g]);
      DepartKeeps(core, [core.waiting[g]], Withdrawn);
      RemoveAt(g, Withdrawn);
    }

    /** tito_clear: how many groups were withdrawn into the output, or -1, and nothing happens,
        when they would not fit. */
    method Clear(out: array<CGroup>, capacity: int) returns (r: int)
      requires Valid() && out != groups && capacity <= out.Length
      modifies this, out
      ensures Valid()
      ensures r < 0 <==> capacity < |old(core).waiting|
      ensures r < 0 ==> core == old(core) && out[..] == old(out[..])
      ensures r >= 0 ==>
        && r == |old(core).waiting| && core == Step(old(core), Op.Clear).0
        && forall i | 0 <= i < r ::
             && old(core).waiting[i] < |core.all|
             && ValidGroup(out[i]) && Value(out[i]) == core.all[old(core).waiting[i]]
    {
      hide WellFormed, Slots, Drop;
      SlotsCount();
      var count := groupCount;
      if capacity < count {
        return -1;
      }
      CopyOut(out);
      FlushKeeps(core);
      groupCount := 0;
      core := core.Depart(core.waiting, Flushed);
      NoSlots(groups[..groupCount], core);
      return count;
    }

    method CopyOut(out: array<CGroup>)
      requires Valid() && out != groups && groupCount <= out.Length
      modifies out
      ensures |core.waiting| == groupCount
      ensures forall i | 0 <= i < groupCount ::
        core.waiting[i] < |core.all| && ValidGroup(out[i]) && Value(out[i]) == core.all[core.waiting[i]]
    {
      hide WellFormed, Slots;
      SlotsCount();
      for g := 0 to groupCount
        invariant forall i | 0 <= i < g ::
          core.waiting[i] < |core.all| && ValidGroup(out[i]) && Value(out[i]) == core.all[core.waiting[i]]
      {
        SlotOf(g);
        out[g] := groups[g];
      }
    }

    /** tito_admit: the slot of the new group, or -1. Beyond the discipline it refuses what does
        not fit: a long name, a large group, a full queue. */
    method Admit(id: Name, members: seq<Name>, count: int) returns (r: int)
      requires Valid() && count <= |members|
      modifies this, groups
      ensures Valid()
      ensures r >= 0 <==> count > 0 && Fits(id, members[..count], |old(core).waiting|)
                          && old(core).CanAdmit(Some(id), members[..count])
      ensures r < 0 ==> core == old(core)
      ensures r >= 0 ==>
        && core == Step(old(core), Op.Admit(Some(id), Items(members[..count]))).0
        && r == |core.waiting| - 1
    {
      hide WellFormed, Slots, State.CanAdmit, Distinct;
      SlotsCount();
      if count <= 0 {
        return -1;
      }
      var items := members[..count];
      if !NameFits(id) {
        return -1;
      }
      if exists i | 0 <= i < count :: !NameFits(items[i]) {
        return -1;
      }
      AdmissionParts(core, id, items);
      var duplicate := HasDuplicates(items);
      if duplicate {
        return -1;
      }
      if count > MAX_MEMBERS || groupCount == MAX_GROUPS {
        return -1;
      }
      var taken := FindSlot(id);
      if taken >= 0 {
        return -1;
      }
      var queued := AnyQueued(items);
      if queued {
        return -1;
      }
      var group := Fill(groups[groupCount], id, items);
      EnterKeeps(core, Some(id), items);
      WithSlot(groups[..groupCount], core, id, items, group);
      groups[groupCount] := group;
      groupCount := groupCount + 1;
      core := core.Enter(Some(id), items);
      assert groups[..groupCount] == old(groups[..groupCount]) + [group];
      return groupCount - 1;
    }

    method AnyQueued(items: seq<Name>) returns (r: bool)
      requires Valid()
      ensures r <==> exists m :: m in items && core.Holder(m).Some?
    {
      hide WellFormed, Slots, First;
      r := false;
      for i := 0 to |items|
        invariant r ==> exists m :: m in items && core.Holder(m).Some?
        invariant !r ==> forall j | 0 <= j < i :: core.Holder(items[j]).None?
      {
        var g := GroupOf(items[i]);
        if g >= 0 {
          assert items[i] in items;
          r := true;
        }
      }
    }
  }

  /** A call as a C caller can write it: every id is a string and every batch an array. */
  ghost predicate Spoken(op: Op<Name, Name>) {
    match op
    case Admit(id, members) => id.Some? && members.Items?
    case MarkGroup(id) => id.Some?
    case Cancel(id) => id.Some?
    case _ => true
  }

  /** So the C queue, which follows `Step`, also follows the scan queue call by call: neither of
      the two Python differences can be spoken in C. */
  lemma FollowsScan(slots: seq<CGroup>, core: State<Name, Name>, op: Op<Name, Name>)
    requires Slots(slots, core) && Spoken(op)
    ensures ScanStep(core, op) == Step(core, op)
  {
    hide Step, First;
    forall m | core.Holder(m).Some? ensures !HeldByNone(core, m) {
      var g :| 0 <= g < |core.waiting| && core.waiting[g] == core.Holder(m).value;
      assert core.all[core.waiting[g]] == Value(slots[g]);
    }
    if op.Admit? { assert Items(op.members.items) == op.members; }
    StepsAgree(core, op);
  }

  /** What the fixed sizes leave room for. */
  predicate Fits(id: Name, items: seq<Name>, waiting: nat) {
    && NameFits(id) && (forall i | 0 <= i < |items| :: NameFits(items[i]))
    && |items| <= MAX_MEMBERS && waiting < MAX_GROUPS
  }

  /** The sizes, in figures: an id and names of at most 31 letters, at most 8 members, and a place
      among 16. */
  lemma FitsInFigures(id: Name, items: seq<Name>, waiting: nat)
    ensures Fits(id, items, waiting) <==>
      |id| <= 31 && (forall i | 0 <= i < |items| :: |items[i]| <= 31) && |items| <= 8 && waiting <= 15
  {
  }

  lemma AdmissionParts(core: State<Name, Name>, id: Name, items: seq<Name>)
    ensures core.CanAdmit(Some(id), items) <==>
      && items != [] && Distinct(items) && core.Find(Some(id)).None?
      && !exists m :: m in items && core.Holder(m).Some?
  {
  }

  /** The nested scan finds exactly the repeated names. */
  method HasDuplicates(items: seq<Name>) returns (r: bool)
    ensures r <==> !Distinct(items)
  {
    for i := 0 to |items|
      invariant Distinct(items[..i])
    {
      for j := 0 to i
        invariant forall k | 0 <= k < j :: items[k] != items[i]
      {
        if items[j] == items[i] {
          return true;
        }
      }
      assert items[..i + 1] == items[..i] + [items[i]];
    }
    assert items[..|items|] == items;
    return false;
  }

  /** Fills a slot, whatever it held before. */
  method Fill(slot: CGroup, id: Name, items: seq<Name>) returns (g: CGroup)
    requires Sized(slot) && 0 < |items| <= MAX_MEMBERS && Distinct(items)
    requires NameFits(id) && forall i | 0 <= i < |items| :: NameFits(items[i])
    ensures ValidGroup(g) && Value(g) == Party(Some(id), items, {})
  {
    var name := StoreName(slot.id, id);
    g := slot.(id := name, memberCount := |items|, readyCount := 0);
    for i := 0 to |items|
      invariant Sized(g)
      invariant g == slot.(id := name, members := g.members, ready := g.ready, memberCount := |items|, readyCount := 0)
      invariant forall j | 0 <= j < i :: TextOf(g.members[j]) == items[j] && !g.ready[j]
    {
      var member := StoreName(g.members[i], items[i]);
      g := g.(members := g.members[i := member], ready := g.ready[i := false]);
    }
    assert Names(g) == items;
    assert Marked(g) == {};
  }

  method StoreName(was: seq<char>, name: Name) returns (buf: seq<char>)
    requires |was| == MAX_NAME && NameFits(name)
    ensures |buf| == MAX_NAME && TextOf(buf) == name
  {
    var dst := new char[MAX_NAME](i requires 0 <= i < |was| => was[i]);
    CopyName(dst, name);
    buf := dst[..];
  }

  lemma WithSlot(slots: seq<CGroup>, core: State<Name, Name>, id: Name, items: seq<Name>, group: CGroup)
    requires Slots(slots, core) && ValidGroup(group) && Value(group) == Party(Some(id), items, {})
    ensures Slots(slots + [group], core.Enter(Some(id), items))
  {
  }

  lemma NoSlots(slots: seq<CGroup>, core: State<Name, Name>)
    requires slots == [] && core.waiting == []
    ensures Slots(slots, core)
  {
  }

  lemma StoreSlots(slots: seq<CGroup>, core: State<Name, Name>, g: nat, group: CGroup, marked: set<Name>)
    requires Slots(slots, core) && Increasing(core.waiting) && g < |slots| && ValidGroup(group)
    requires Value(group) == Value(slots[g]).(marked := marked)
    ensures var s := core.waiting[g];
      Slots(slots[g := group], core.(all := core.all[s := core.all[s].(marked := marked)]))
  {
  }

  lemma DepartStays(core: State<Name, Name>, gone: seq<nat>, how: How)
    ensures core.Depart(gone, how).strict == core.strict
  {
  }

  lemma WithoutSlot(slots: seq<CGroup>, core: State<Name, Name>, index: nat, how: How)
    requires Slots(slots, core) && WellFormed(core) && index < |slots|
    ensures Slots(slots[..index] + slots[index + 1..], core.Depart([core.waiting[index]], how))
  {
    hide Slots, Disjoint, Conserved, InLine;
    assert Distinct(core.waiting);
    SlotsAt(slots, core, index, how);
  }

  lemma SlotsAt(slots: seq<CGroup>, core: State<Name, Name>, index: nat, how: How)
    requires Slots(slots, core) && Distinct(core.waiting) && index < |slots|
    ensures Slots(slots[..index] + slots[index + 1..], core.Depart([core.waiting[index]], how))
  {
    hide ValidGroup, Value, Drop, Distinct;
    DropAt(core.waiting, index);
    assert Elements([core.waiting[index]]) == {core.waiting[index]};
  }

  /** The loop of tito_mark_group_ready and its counter. */
  method MarkAll(g: CGroup) returns (r: CGroup)
    requires ValidGroup(g)
    ensures ValidGroup(r) && Value(r) == Value(g).MarkWhole()
  {
    r := g;
    for i := 0 to g.memberCount
      invariant r == g.(ready := r.ready) && |r.ready| == MAX_MEMBERS
      invariant forall j | 0 <= j < i :: r.ready[j]
    {
      r := r.(ready := r.ready[i := true]);
    }
    r := r.(readyCount := g.memberCount);
    WholeMarked(g, r);
  }

  lemma WholeMarked(g: CGroup, r: CGroup)
    requires ValidGroup(g) && |r.ready| == MAX_MEMBERS && forall j | 0 <= j < g.memberCount :: r.ready[j]
    requires r == g.(ready := r.ready, readyCount := g.memberCount)
    ensures ValidGroup(r) && Value(r) == Value(g).MarkWhole()
  {
    assert Names(r) == Names(g);
    forall m | m in Names(g) ensures m in Marked(r) {
      var j :| 0 <= j < g.memberCount && Names(g)[j] == m;
      assert r.ready[j] && TextOf(r.members[j]) == m;
    }
    assert Marked(r) == Elements(Names(g));
    DistinctSize(Names(g));
  }
}
