/** The two dictionaries every Python queue keeps: id to group, in arrival order, and member to id.

They are stated against the value of the line, for any representation `G` of a group, so that
the indexed queue and the scan queue share them. */
module Tables {
  import opened Lists
  import opened Discipline
  import opened Guarantees

  /** The insertion-ordered dictionary lists exactly the waiting groups, in arrival order. */
  ghost predicate Lined<I(!new), M(!new), G>(order: seq<Option<I>>, table: map<Option<I>, G>,
                                             c: State<I, M>, history: seq<G>)
  {
    && |history| == |c.all| && |order| == |c.waiting|
    && Distinct(order) && table.Keys == Elements(order)
    && forall i | 0 <= i < |order| ::
         && c.waiting[i] < |c.all|
         && order[i] == c.all[c.waiting[i]].id
         && order[i] in table && table[order[i]] == history[c.waiting[i]]
  }

  /** A member is indexed exactly when its group waits, and under that group's id. */
  ghost predicate Indexed<I(!new), M(!new)>(index: map<M, Option<I>>, c: State<I, M>) {
    forall m :: (m in index <==> c.Holder(m).Some?) &&
      (c.Holder(m).Some? ==> c.Holder(m).value < |c.all| && index[m] == c.all[c.Holder(m).value].id)
  }

  /** The dictionary finds exactly the waiting group with an id. */
  lemma TableFinds<I(!new), M(!new), G>(order: seq<Option<I>>, table: map<Option<I>, G>,
                                        c: State<I, M>, history: seq<G>, id: Option<I>)
    requires WellFormed(c) && Lined(order, table, c, history)
    ensures id in table <==> c.Find(id).Some?
    ensures id in table ==>
      c.Find(id).value in c.waiting && c.Find(id).value < |history| && table[id] == history[c.Find(id).value]
  {
    if id in table {
      var i :| 0 <= i < |order| && order[i] == id;
      FindIs(c, c.waiting[i]);
    }
    if c.Find(id).Some? {
      var i :| 0 <= i < |c.waiting| && c.waiting[i] == c.Find(id).value;
      assert order[i] == id;
    }
  }

  /** The member index, followed by the dictionary, finds exactly the waiting group of a member. */
  lemma IndexFinds<I(!new), M(!new), G>(order: seq<Option<I>>, table: map<Option<I>, G>, index: map<M, Option<I>>,
                                        c: State<I, M>, history: seq<G>, m: M)
    requires WellFormed(c) && Lined(order, table, c, history) && Indexed(index, c)
    ensures m in index <==> c.Holder(m).Some?
    ensures m in index ==>
      && index[m] in table && c.Holder(m).value < |history|
      && c.Holder(m).value in c.waiting && m in c.all[c.Holder(m).value].members
      && table[index[m]] == history[c.Holder(m).value]
  {
    if m in index {
      var s := c.Holder(m).value;
      assert s in c.WithMember(m);
      FindIs(c, s);
      TableFinds(order, table, c, history, index[m]);
    }
  }

  // ---------- marking ----------

  /** The same line, up to marks. */
  ghost predicate SameLine<I, M>(c: State<I, M>, c': State<I, M>) {
    && c'.waiting == c.waiting && |c'.all| == |c.all|
    && forall s: nat | s < |c.all| :: c'.all[s].id == c.all[s].id && c'.all[s].members == c.all[s].members
  }

  lemma MarkedTables<I(!new), M(!new), G>(order: seq<Option<I>>, table: map<Option<I>, G>, index: map<M, Option<I>>,
                                          c: State<I, M>, history: seq<G>, c': State<I, M>)
    requires Lined(order, table, c, history) && Indexed(index, c) && SameLine(c, c')
    ensures Lined(order, table, c', history) && Indexed(index, c')
  {
    assert forall m :: c'.WithMember(m) == c.WithMember(m);
    assert forall m :: c'.Holder(m) == c.Holder(m);
  }

  // ---------- admission ----------

  lemma LinedWith<I(!new), M(!new), G>(order: seq<Option<I>>, table: map<Option<I>, G>,
                                       c: State<I, M>, history: seq<G>, id: Option<I>, items: seq<M>, g: G)
    requires Lined(order, table, c, history) && id !in table
    ensures Lined(order + [id], table[id := g], c.Enter(id, items), history + [g])
  {
    assert forall i | 0 <= i < |order| :: order[i] in table;
  }

  lemma IndexedWith<I(!new), M(!new)>(index: map<M, Option<I>>, c: State<I, M>, id: Option<I>, items: seq<M>)
    requires WellFormed(c) && Indexed(index, c) && c.CanAdmit(id, items)
    ensures Indexed(index + (map m | m in Elements(items) :: id), c.Enter(id, items))
  {
    hide WellFormed, First, State.CanAdmit;
    EnterKeeps(c, id, items);
    var c' := c.Enter(id, items);
    forall m
      ensures c'.Holder(m) == if m in items then Some(|c.all|) else c.Holder(m)
    {
      EnterHolder(c, id, items, m);
    }
  }

  lemma EnterHolder<I(!new), M(!new)>(c: State<I, M>, id: Option<I>, items: seq<M>, m: M)
    requires WellFormed(c) && WellFormed(c.Enter(id, items)) && c.CanAdmit(id, items)
    ensures c.Enter(id, items).Holder(m) == if m in items then Some(|c.all|) else c.Holder(m)
  {
    var c' := c.Enter(id, items);
    if m in items {
      FindIs(c', |c.all|);
    } else if c.Holder(m).Some? {
      var s := c.Holder(m).value;
      assert s in c.WithMember(m) && c'.all[s] == c.all[s];
      FindIs(c', s);
    } else {
      forall s | s in c'.waiting ensures s !in c'.WithMember(m) {
        if s in c.waiting { assert s !in c.WithMember(m) && c'.all[s] == c.all[s]; }
      }
    }
  }

  // ---------- departure ----------

  lemma LinedWithout<I(!new), M(!new), G>(order: seq<Option<I>>, table: map<Option<I>, G>,
                                          c: State<I, M>, history: seq<G>, s: nat, how: How)
    requires Lined(order, table, c, history) && Distinct(c.waiting) && s in c.waiting && s < |c.all|
    ensures var id := c.all[s].id;
      && id in table
      && Lined(Drop(order, {id}), table - {id}, c.Depart([s], how), history)
  {
    var i :| 0 <= i < |c.waiting| && c.waiting[i] == s;
    DropAt(c.waiting, i);
    DropAt(order, i);
    assert Elements([s]) == {s};
    LinedAt(order, table, c, history, i, c.Depart([s], how));
  }

  lemma LinedAt<I(!new), M(!new), G>(order: seq<Option<I>>, table: map<Option<I>, G>,
                                     c: State<I, M>, history: seq<G>, i: nat, c': State<I, M>)
    requires Lined(order, table, c, history) && i < |order|
    requires c'.all == c.all && c'.waiting == c.waiting[..i] + c.waiting[i + 1..]
    ensures Lined(order[..i] + order[i + 1..], table - {order[i]}, c', history)
  {
    var order' := order[..i] + order[i + 1..];
    forall j | 0 <= j < |order'|
      ensures var k := if j < i then j else j + 1; order'[j] == order[k] && c'.waiting[j] == c.waiting[k]
    {
    }
    RemoveAt(order, i);
    hide Distinct;
    assert (table - {order[i]}).Keys == Elements(order');
  }

  lemma IndexedWithout<I(!new), M(!new)>(index: map<M, Option<I>>, c: State<I, M>, s: nat, how: How)
    requires WellFormed(c) && Indexed(index, c) && s in c.waiting
    ensures forall m | m in c.all[s].members :: m in index
    ensures Indexed(index - Elements(c.all[s].members), c.Depart([s], how))
  {
    FindIs(c, s);
    var c' := c.Depart([s], how);
    hide WellFormed, First, Drop;
    forall m
      ensures c'.Holder(m) == if m in c.all[s].members then None else c.Holder(m)
    {
      DepartHolder(c, s, how, m);
    }
  }

  lemma DepartHolder<I(!new), M(!new)>(c: State<I, M>, s: nat, how: How, m: M)
    requires WellFormed(c) && s in c.waiting
    ensures c.Depart([s], how).Holder(m) == if m in c.all[s].members then None else c.Holder(m)
  {
    var c' := c.Depart([s], how);
    assert forall t :: t in c'.waiting <==> t in c.waiting && t != s;
    assert c'.WithMember(m) == c.WithMember(m);
    FindIs(c, s);
    if c.Holder(m).Some? && m !in c.all[s].members {
      var t := c.Holder(m).value;
      assert t in c'.waiting && t in c'.WithMember(m);
    }
    if c'.Holder(m).Some? {
      var t := c'.Holder(m).value;
      assert t in c.waiting && t in c.WithMember(m);
      FindIs(c, t);
    }
  }

  lemma EmptyTables<I(!new), M(!new), G>(order: seq<Option<I>>, table: map<Option<I>, G>,
                                         c: State<I, M>, history: seq<G>, c': State<I, M>)
    requires Lined(order, table, c, history) && c'.all == c.all && c'.waiting == []
    ensures Lined([], map[], c', history)
    ensures Indexed<I, M>(map[], c')
  {
  }

  // ---------- the loops over members ----------

  /** Adds each member under the id. */
  method AddAll<I, M(==)>(index: map<M, Option<I>>, id: Option<I>, members: seq<M>) returns (r: map<M, Option<I>>)
    ensures r == index + map m | m in Elements(members) :: id
  {
    r := index;
    for i := 0 to |members|
      invariant r == index + map m | m in Elements(members[..i]) :: id
    {
      r := r[members[i] := id];
      assert members[..i + 1] == members[..i] + [members[i]];
    }
    assert members[..|members|] == members;
  }

  /** Deletes each member; every `del` finds its key. */
  method DeleteAll<I, M(==)>(index: map<M, Option<I>>, members: seq<M>) returns (r: map<M, Option<I>>)
    requires Distinct(members) && forall m | m in members :: m in index
    ensures r == index - Elements(members)
  {
    r := index;
    for i := 0 to |members|
      invariant r == index - Elements(members[..i])
    {
      assert members[i] in r;
      r := r - {members[i]};
      assert members[..i + 1] == members[..i] + [members[i]];
    }
    assert members[..|members|] == members;
  }
}
