/** Order-preserving selections from a sequence.

Arrival order is the only order the queue ever uses, so everything it hands out is a
selection from one increasing sequence of arrival numbers. `IncreasingUnique` is the
workhorse: two increasing sequences with the same elements are the same sequence. */
module Lists {
  datatype Option<+T> = None | Some(value: T)

  ghost predicate Distinct<T>(xs: seq<T>) {
    forall i, j :: 0 <= i < j < |xs| ==> xs[i] != xs[j]
  }

  ghost predicate Increasing(xs: seq<nat>) {
    forall i, j :: 0 <= i < j < |xs| ==> xs[i] < xs[j]
  }

  ghost function Elements<T>(xs: seq<T>): set<T> {
    set x | x in xs
  }

  /** The elements of `xs` that are in `s`, in their original order. */
  ghost function Keep<T(!new)>(xs: seq<T>, s: set<T>): (r: seq<T>)
    ensures forall x :: x in r <==> x in xs && x in s
  {
    if xs == [] then [] else (if xs[0] in s then [xs[0]] else []) + Keep(xs[1..], s)
  }

  /** The elements of `xs` that are not in `s`, in their original order. */
  ghost function Drop<T(!new)>(xs: seq<T>, s: set<T>): (r: seq<T>)
    ensures forall x :: x in r <==> x in xs && x !in s
  {
    if xs == [] then [] else (if xs[0] in s then [] else [xs[0]]) + Drop(xs[1..], s)
  }

  lemma {:induction false} FirstAt(xs: seq<nat>, s: set<nat>, i: nat)
    requires i < |xs| && xs[i] in s && forall j | 0 <= j < i :: xs[j] !in s
    ensures First(xs, s) == Some(xs[i])
  {
    if i > 0 {
      FirstAt(xs[1..], s, i - 1);
    }
  }

  /** The longest prefix of `xs` whose elements are all in `s`. */
  ghost function Prefix<T>(xs: seq<T>, s: set<T>): (r: seq<T>)
    ensures r <= xs
    ensures forall x | x in r :: x in s
    ensures |r| < |xs| ==> xs[|r|] !in s
  {
    if xs == [] || xs[0] !in s then [] else [xs[0]] + Prefix(xs[1..], s)
  }

  /** The first element of `xs` that is in `s`; the least one when `xs` is increasing. */
  ghost function First(xs: seq<nat>, s: set<nat>): (r: Option<nat>)
    ensures r.None? <==> forall x | x in xs :: x !in s
    ensures r.Some? ==> r.value in xs && r.value in s
    ensures r.Some? && Increasing(xs) ==> forall x | x in xs && x in s :: r.value <= x
  {
    if xs == [] then None else if xs[0] in s then Some(xs[0]) else First(xs[1..], s)
  }

  lemma {:induction false} IncreasingUnique(xs: seq<nat>, ys: seq<nat>)
    requires Increasing(xs) && Increasing(ys)
    requires forall x :: x in xs <==> x in ys
    ensures xs == ys
  {
    if xs == [] {
      assert forall i | 0 <= i < |ys| :: ys[i] in ys;
    } else {
      assert xs[0] in ys;
      var x, y := xs[|xs| - 1], ys[|ys| - 1];
      assert x in ys && y in xs;
      var xs', ys' := xs[..|xs| - 1], ys[..|ys| - 1];
      forall z ensures z in xs' <==> z in ys' {
        assert z in xs' <==> z in xs && z != x;
        assert z in ys' <==> z in ys && z != y;
      }
      IncreasingUnique(xs', ys');
    }
  }

  /** The elements flagged `want`, in order. */
  function Flagged<T(==, !new)>(xs: seq<T>, flags: map<T, bool>, want: bool): (r: seq<T>)
    requires forall x | x in xs :: x in flags
    ensures want ==> r == Keep(xs, set x | x in flags && flags[x])
    ensures !want ==> r == Drop(xs, set x | x in flags && flags[x])
  {
    if xs == [] then [] else (if flags[xs[0]] == want then [xs[0]] else []) + Flagged(xs[1..], flags, want)
  }

  lemma {:induction false} KeepIncreasing(xs: seq<nat>, s: set<nat>)
    requires Increasing(xs)
    ensures Increasing(Keep(xs, s))
  {
    if xs != [] {
      KeepIncreasing(xs[1..], s);
      assert forall x | x in xs[1..] :: xs[0] < x;
      var rest := Keep(xs[1..], s);
      assert forall j | 0 <= j < |rest| :: rest[j] in rest;
    }
  }

  lemma {:induction false} DropIncreasing(xs: seq<nat>, s: set<nat>)
    requires Increasing(xs)
    ensures Increasing(Drop(xs, s))
  {
    if xs != [] {
      DropIncreasing(xs[1..], s);
      assert forall x | x in xs[1..] :: xs[0] < x;
      var rest := Drop(xs[1..], s);
      assert forall j | 0 <= j < |rest| :: rest[j] in rest;
    }
  }

  lemma {:induction false} DistinctCount<T>(xs: seq<T>, x: T)
    requires Distinct(xs)
    ensures multiset(xs)[x] == if x in xs then 1 else 0
  {
    if xs != [] {
      assert xs == [xs[0]] + xs[1..];
      DistinctCount(xs[1..], x);
    }
  }

  /** Removing distinct elements from an increasing sequence loses nothing else. */
  lemma DropSplits(xs: seq<nat>, gone: seq<nat>)
    requires Increasing(xs) && Distinct(gone) && forall x | x in gone :: x in xs
    ensures multiset(xs) == multiset(Drop(xs, Elements(gone))) + multiset(gone)
  {
    var left := Drop(xs, Elements(gone));
    DropIncreasing(xs, Elements(gone));
    forall x ensures multiset(xs)[x] == (multiset(left) + multiset(gone))[x] {
      DistinctCount(xs, x);
      DistinctCount(gone, x);
      DistinctCount(left, x);
      assert x in left <==> x in xs && x !in gone;
    }
  }

  lemma DistinctTail<T>(xs: seq<T>)
    requires Distinct(xs) && xs != []
    ensures Distinct(xs[1..]) && xs[0] !in xs[1..]
  {
  }

  /** Deleting the element at a known position is `Drop` of that element. */
  lemma {:induction false} DropAt<T(!new)>(xs: seq<T>, i: nat)
    requires Distinct(xs) && i < |xs|
    ensures Drop(xs, {xs[i]}) == xs[..i] + xs[i + 1..]
  {
    hide Distinct;
    DistinctTail(xs);
    var tail := xs[1..];
    if i == 0 {
      DropNothing(tail, {xs[0]});
    } else {
      assert tail[i - 1] == xs[i];
      DropAt(tail, i - 1);
      Splice(xs, i);
    }
  }

  lemma Splice<T>(xs: seq<T>, i: nat)
    requires 0 < i < |xs|
    ensures [xs[0]] + (xs[1..][..i - 1] + xs[1..][i..]) == xs[..i] + xs[i + 1..]
  {
  }

  lemma RemoveAt<T>(xs: seq<T>, i: nat)
    requires Distinct(xs) && i < |xs|
    ensures var r := xs[..i] + xs[i + 1..]; Distinct(r) && Elements(r) == Elements(xs) - {xs[i]}
  {
    var r := xs[..i] + xs[i + 1..];
    assert forall j | 0 <= j < |r| :: r[j] == xs[if j < i then j else j + 1];
    forall x | x in xs && x != xs[i] ensures x in r {
      var k :| 0 <= k < |xs| && xs[k] == x;
      assert r[if k < i then k else k - 1] == x;
    }
  }

  /** Deletion of one key from an insertion-ordered dictionary. */
  function Without<T(==, !new)>(xs: seq<T>, x: T): (r: seq<T>)
    ensures r == Drop(xs, {x})
  {
    if xs == [] then [] else (if xs[0] == x then [] else [xs[0]]) + Without(xs[1..], x)
  }

  lemma {:induction false} DropNothing<T(!new)>(xs: seq<T>, s: set<T>)
    requires forall x | x in xs :: x !in s
    ensures Drop(xs, s) == xs
  {
    if xs != [] {
      DropNothing(xs[1..], s);
      assert xs == [xs[0]] + xs[1..];
    }
  }

  lemma {:induction false} DropAll(xs: seq<nat>, s: set<nat>)
    requires forall x | x in xs :: x in s
    ensures Drop(xs, s) == []
  {
    if xs != [] {
      DropAll(xs[1..], s);
    }
  }

  /** The two selections are an order-preserving partition of the sequence. */
  lemma {:induction false} KeepDropPartition<T(!new)>(xs: seq<T>, s: set<T>)
    ensures multiset(Keep(xs, s)) + multiset(Drop(xs, s)) == multiset(xs)
  {
    if xs != [] {
      KeepDropPartition(xs[1..], s);
      assert xs == [xs[0]] + xs[1..];
      assert multiset(xs) == multiset{xs[0]} + multiset(xs[1..]);
      if xs[0] in s {
        assert multiset(Keep(xs, s)) == multiset{xs[0]} + multiset(Keep(xs[1..], s));
      } else {
        assert multiset(Drop(xs, s)) == multiset{xs[0]} + multiset(Drop(xs[1..], s));
      }
    }
  }

  lemma {:induction false} KeepSize<T(!new)>(xs: seq<T>, s: set<T>)
    requires Distinct(xs) && s <= Elements(xs)
    ensures |Keep(xs, s)| == |s|
  {
    if xs != [] {
      assert xs[0] !in xs[1..];
      KeepSize(xs[1..], s - {xs[0]});
      KeepAgrees(xs[1..], s, s - {xs[0]});
    }
  }

  lemma {:induction false} KeepAgrees<T(!new)>(xs: seq<T>, s: set<T>, t: set<T>)
    requires forall x | x in xs :: x in s <==> x in t
    ensures Keep(xs, s) == Keep(xs, t)
  {
    if xs != [] {
      KeepAgrees(xs[1..], s, t);
    }
  }

  /** A sequence has as many elements as positions exactly when it has no repeats. */
  lemma {:induction false} DistinctSize<T>(xs: seq<T>)
    ensures |Elements(xs)| <= |xs|
    ensures |Elements(xs)| == |xs| <==> Distinct(xs)
  {
    if xs != [] {
      var front, last := xs[..|xs| - 1], xs[|xs| - 1];
      DistinctSize(front);
      assert Elements(xs) == Elements(front) + {last};
      if last in front {
        assert Elements(xs) == Elements(front);
        var i :| 0 <= i < |front| && front[i] == last;
        assert xs[i] == xs[|xs| - 1];
      } else if Distinct(front) {
        assert forall i | 0 <= i < |front| :: xs[i] == front[i] && front[i] in front;
        assert Distinct(xs);
      }
      if Distinct(xs) { assert Distinct(front); assert last !in front; }
    }
  }

  /** Counting the marked members decides whether all are marked. */
  lemma FullCount<M>(members: seq<M>, marked: set<M>)
    requires Distinct(members) && marked <= Elements(members)
    ensures |marked| == |members| <==> Elements(members) <= marked
  {
    DistinctSize(members);
    SubsetSize(marked, Elements(members));
    assert Elements(members) <= marked ==> marked == Elements(members);
  }

  /** Distinct numbers below `n` are at most `n` many. */
  lemma BoundedDistinct(xs: seq<nat>, n: nat)
    requires Distinct(xs) && forall x | x in xs :: x < n
    ensures |xs| <= n
  {
    DistinctSize(xs);
    SubsetSize(Elements(xs), Below(n));
  }

  ghost function Below(n: nat): (r: set<nat>)
    ensures forall x: nat :: x in r <==> x < n
    ensures |r| == n
  {
    if n == 0 then {} else
      var fewer := Below(n - 1);
      assert n - 1 !in fewer && |fewer + {n - 1}| == |fewer| + 1;
      fewer + {n - 1}
  }

  lemma {:induction false} SubsetSize<T>(a: set<T>, b: set<T>)
    requires a <= b
    ensures |a| <= |b|
    ensures |a| == |b| ==> a == b
  {
    if a != {} {
      var x :| x in a;
      SubsetSize(a - {x}, b - {x});
    }
  }

  /** The least element of a non-empty set. */
  ghost function Min(s: set<nat>): (m: nat)
    requires s != {}
    ensures m in s && forall x | x in s :: m <= x
  {
    var x :| x in s;
    var others := s - {x};
    assert s == others + {x};
    if others == {} then x else
      var m := Min(others);
      if x < m then x else m
  }
}
