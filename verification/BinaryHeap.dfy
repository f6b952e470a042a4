/** A binary min-heap on a list, with the contract the queue relies on: pushing and popping keep
the heap shape, change the contents by exactly one element, and the first element is least. */
module BinaryHeap {
  import opened Lists

  function Parent(i: nat): nat
    requires i > 0
  {
    (i - 1) / 2
  }

  ghost predicate IsHeap(h: seq<nat>) {
    forall i :: 0 < i < |h| ==> h[Parent(i)] <= h[i]
  }

  lemma {:induction false} TopIsLeast(h: seq<nat>, i: nat)
    requires IsHeap(h) && i < |h|
    ensures h[0] <= h[i]
  {
    if i > 0 {
      TopIsLeast(h, Parent(i));
    }
  }

  lemma TopIsMin(h: seq<nat>)
    requires IsHeap(h) && h != []
    ensures h[0] in Elements(h) && h[0] == Min(Elements(h))
  {
    assert h[0] in Elements(h);
    var i :| 0 <= i < |h| && h[i] == Min(Elements(h));
    TopIsLeast(h, i);
  }

  // ---------- depth ----------

  /** The largest k with 2^k <= n, for positive n: how deep position n - 1 lies. */
  ghost function Log2(n: nat): nat {
    if n <= 1 then 0 else 1 + Log2(n / 2)
  }

  lemma {:induction false} Log2Grows(m: nat, n: nat)
    requires m <= n
    ensures Log2(m) <= Log2(n)
  {
    if m > 1 { Log2Grows(m / 2, n / 2); }
  }

  ghost function Power2(k: nat): nat {
    if k == 0 then 1 else 2 * Power2(k - 1)
  }

  /** So a logarithm is what it should be. */
  lemma {:induction false} Log2Bounds(n: nat)
    requires n > 0
    ensures Power2(Log2(n)) <= n < 2 * Power2(Log2(n))
  {
    if n > 1 { Log2Bounds(n / 2); }
  }

  /** One level up, or one level down. */
  lemma OneLevel(i: nat)
    ensures i > 0 ==> Log2(i + 1) == Log2(Parent(i) + 1) + 1
    ensures Log2(2 * i + 2) == Log2(2 * i + 3) == Log2(i + 1) + 1
  {
    assert (2 * i + 2) / 2 == i + 1 && (2 * i + 3) / 2 == i + 1;
    if i > 0 { assert (i + 1) / 2 == Parent(i) + 1; }
  }

  function Swap(h: seq<nat>, i: nat, j: nat): (r: seq<nat>)
    requires i < |h| && j < |h|
    ensures |r| == |h| && multiset(r) == multiset(h)
    ensures r[i] == h[j] && r[j] == h[i]
  {
    h[i := h[j]][j := h[i]]
  }

  // ---------- exchanges ----------

  /** The element at `c` changes places with its parent. */
  ghost function Exchange(g: seq<nat>, c: nat): (r: seq<nat>)
    ensures |r| == |g| && multiset(r) == multiset(g)
  {
    if 0 < c < |g| then Swap(g, c, Parent(c)) else g
  }

  /** The list after such exchanges at these positions, one after the other. */
  ghost function Exchanged(h: seq<nat>, moves: seq<nat>): (r: seq<nat>)
    ensures |r| == |h| && multiset(r) == multiset(h)
  {
    if moves == [] then h else Exchange(Exchanged(h, moves[..|moves| - 1]), moves[|moves| - 1])
  }

  lemma NothingExchanged(h: seq<nat>)
    ensures Exchanged(h, []) == h
  {
  }

  lemma ExchangeLast(h: seq<nat>, moves: seq<nat>, c: nat)
    ensures Exchanged(h, moves + [c]) == Exchange(Exchanged(h, moves), c)
  {
    hide Exchange;
    assert (moves + [c])[..|moves + [c]| - 1] == moves;
  }

  lemma ExchangeOne(h: seq<nat>, moves: seq<nat>, c: nat, p: nat)
    requires 0 < c < |h| && p == Parent(c)
    ensures Exchanged(h, moves + [c]) == Swap(Exchanged(h, moves), c, p)
  {
    hide Exchanged, Swap;
    ExchangeLast(h, moves, c);
  }

  lemma {:induction false} ExchangeMore(h: seq<nat>, a: seq<nat>, b: seq<nat>)
    ensures Exchanged(h, a + b) == Exchanged(Exchanged(h, a), b)
  {
    hide Exchanged, Exchange;
    if b == [] {
      assert a + b == a;
      NothingExchanged(Exchanged(h, a));
    } else {
      var front, c := b[..|b| - 1], b[|b| - 1];
      ExchangeMore(h, a, front);
      assert a + b == a + front + [c] && b == front + [c];
      ExchangeLast(h, a + front, c);
      ExchangeLast(Exchanged(h, a), front, c);
    }
  }

  /** In order except that the element at `i` may be smaller than its parent. */
  ghost predicate Rising(h: seq<nat>, i: nat) {
    && i < |h|
    && (forall j | 0 < j < |h| && j != i :: h[Parent(j)] <= h[j])
    && (i > 0 ==> forall j | 0 < j < |h| && Parent(j) == i :: h[Parent(i)] <= h[j])
  }

  lemma Rise(h: seq<nat>, i: nat)
    requires Rising(h, i) && i > 0 && h[i] < h[Parent(i)]
    ensures Rising(Swap(h, i, Parent(i)), Parent(i))
  {
    var p := Parent(i);
    var r := Swap(h, i, p);
    forall j | 0 < j < |r| && j != p ensures r[Parent(j)] <= r[j] {
      assert h[Parent(j)] <= h[j] || j == i;
    }
    if p > 0 {
      forall j | 0 < j < |r| && Parent(j) == p ensures r[Parent(p)] <= r[j] {
        assert h[Parent(p)] <= h[p];
        assert j != i ==> h[p] <= h[j];
      }
    }
  }

  /** A push exchanges once a level, at most from the bottom to the top; and all the way when the
      new element is the least. `moves` are the exchanges it makes. */
  method Heappush(h: seq<nat>, x: nat) returns (r: seq<nat>, ghost moves: seq<nat>)
    requires IsHeap(h)
    ensures IsHeap(r) && multiset(r) == multiset(h) + multiset([x])
    ensures r == Exchanged(h + [x], moves) && |moves| <= Log2(|h| + 1)
    ensures (forall y | y in h :: x < y) ==> |moves| == Log2(|h| + 1)
  {
    hide IsHeap, Rising, Swap, Exchanged;
    r, moves := h + [x], [];
    NothingExchanged(r);
    var i: nat := |h|;
    Appended(h, x);
    while i > 0 && r[i] < r[Parent(i)]
      invariant Rising(r, i) && |r| == |h| + 1 && i <= |h| && r[i] == x
      invariant multiset(r) == multiset(h) + multiset([x])
      invariant r == Exchanged(h + [x], moves) && |moves| + Log2(i + 1) == Log2(|h| + 1)
    {
      Rise(r, i);
      OneLevel(i);
      ExchangeOne(h + [x], moves, i, Parent(i));
      r := Swap(r, i, Parent(i));
      i, moves := Parent(i), moves + [i];
    }
    Risen(r, i);
    if i > 0 { Elsewhere(h, x, r, i, Parent(i)); }
  }

  lemma Appended(h: seq<nat>, x: nat)
    requires IsHeap(h)
    ensures Rising(h + [x], |h|) && multiset(h + [x]) == multiset(h) + multiset([x])
  {
  }

  lemma Risen(h: seq<nat>, i: nat)
    requires Rising(h, i) && (i > 0 ==> h[Parent(i)] <= h[i])
    ensures IsHeap(h)
  {
  }

  /** What stands at another position than the new element was there before it. */
  lemma Elsewhere(h: seq<nat>, x: nat, r: seq<nat>, i: nat, j: nat)
    requires multiset(r) == multiset(h) + multiset([x]) && i < |r| && j < |r| && i != j && r[i] == x
    ensures r[j] in h || r[j] == x
    ensures x !in h ==> r[j] in h
  {
    assert r[j] in multiset(r);
    if r[j] == x {
      TwoPlaces(r, i, j);
    }
  }

  lemma TwoPlaces(r: seq<nat>, i: nat, j: nat)
    requires i < |r| && j < |r| && i != j && r[i] == r[j]
    ensures multiset(r)[r[i]] >= 2
  {
    var a, b := if i < j then i else j, if i < j then j else i;
    assert r == r[..b] + [r[b]] + r[b + 1..];
    assert r[a] in r[..b] && multiset(r[..b])[r[a]] >= 1;
  }

  /** Everything at or below `from` is in order, except that the element at `i` may be larger
      than its children. */
  ghost predicate Sinking(h: seq<nat>, i: nat, from: nat) {
    && from <= i
    && (forall j | 0 < j < |h| && from <= Parent(j) && Parent(j) != i :: h[Parent(j)] <= h[j])
    && (i > 0 && from <= Parent(i) ==> forall j | 0 < j < |h| && Parent(j) == i :: h[Parent(i)] <= h[j])
  }

  lemma Sink(h: seq<nat>, i: nat, child: nat, from: nat)
    requires Sinking(h, i, from) && 2 * i + 1 <= child <= 2 * i + 2 && child < |h| && h[child] < h[i]
    requires h[child] <= h[2 * i + 1] && (2 * i + 2 < |h| ==> h[child] <= h[2 * i + 2])
    ensures Sinking(Swap(h, child, i), child, from) && i == Parent(child)
  {
    var r := Swap(h, child, i);
    assert Parent(child) == i;
    assert forall j | 0 < j < |h| && Parent(j) == i :: j == 2 * i + 1 || j == 2 * i + 2;
    forall j | 0 < j < |r| && from <= Parent(j) && Parent(j) != child ensures r[Parent(j)] <= r[j] {
      if Parent(j) == i {
        assert h[child] <= h[j];
      } else {
        assert h[Parent(j)] <= h[j];
        assert j == i ==> h[Parent(i)] <= h[child];
      }
    }
    assert forall j | 0 < j < |r| && Parent(j) == child :: h[Parent(j)] <= h[j];
  }

  /** In order from position `from` down. */
  ghost predicate HeapFrom(h: seq<nat>, from: nat) {
    forall j :: 0 < j < |h| && from <= Parent(j) ==> h[Parent(j)] <= h[j]
  }

  /** Nothing is left to sink once neither child is smaller. */
  lemma Sunk(h: seq<nat>, i: nat, from: nat)
    requires Sinking(h, i, from)
    requires 2 * i + 1 < |h| ==> h[i] <= h[2 * i + 1]
    requires 2 * i + 2 < |h| ==> h[i] <= h[2 * i + 2]
    ensures HeapFrom(h, from)
  {
    forall j | 0 < j < |h| && from <= Parent(j) ensures h[Parent(j)] <= h[j] {
      assert Parent(j) == i ==> j == 2 * i + 1 || j == 2 * i + 2;
    }
  }

  method SiftDown(h: seq<nat>, k: nat, from: nat) returns (r: seq<nat>, ghost moves: seq<nat>)
    requires Sinking(h, k, from) && k < |h|
    ensures |r| == |h| && multiset(r) == multiset(h)
    ensures HeapFrom(r, from)
    ensures r == Exchanged(h, moves) && |moves| + Log2(k + 1) <= Log2(|h|)
  {
    hide HeapFrom, Sinking, Parent, Swap, Log2, Exchanged;
    r, moves := h, [];
    NothingExchanged(h);
    var i: nat := k;
    Log2Grows(k + 1, |h|);
    while 2 * i + 1 < |r|
      invariant Sinking(r, i, from) && i < |r| == |h|
      invariant r == Exchanged(h, moves)
      invariant |moves| + Log2(k + 1) == Log2(i + 1) <= Log2(|h|)
      decreases |r| - i
    {
      var child := 2 * i + 1;
      if child + 1 < |r| && r[child + 1] < r[child] {
        child := child + 1;
      }
      if r[i] <= r[child] {
        Sunk(r, i, from);
        return;
      }
      Sink(r, i, child, from);
      OneLevel(i);
      Log2Grows(child + 1, |h|);
      ExchangeOne(h, moves, child, i);
      r := Swap(r, child, i);
      i, moves := child, moves + [child];
    }
    Sunk(r, i, from);
  }

  /** A pop puts the last element first and lets it sink, at most one exchange a level. */
  method Heappop(h: seq<nat>) returns (r: seq<nat>, ghost moves: seq<nat>)
    requires IsHeap(h) && h != []
    ensures IsHeap(r) && multiset(h) == multiset(r) + multiset([h[0]])
    ensures |r| == |h| - 1
    ensures |h| > 1 ==> r == Exchanged(h[..|h| - 1][0 := h[|h| - 1]], moves)
    ensures |moves| <= Log2(|h|)
  {
    hide Log2, Exchanged;
    var last := h[|h| - 1];
    assert h == h[..|h| - 1] + [last];
    if |h| == 1 {
      return [], [];
    }
    var rest := h[..|h| - 1];
    var moved := rest[0 := last];
    assert rest == [h[0]] + rest[1..] && moved == [last] + rest[1..];
    r, moves := SiftDown(moved, 0, 0);
    Log2Grows(|moved|, |h|);
  }

  method Heapify(xs: seq<nat>) returns (h: seq<nat>, ghost moves: seq<nat>)
    ensures IsHeap(h) && multiset(h) == multiset(xs)
    ensures h == Exchanged(xs, moves) && |moves| <= |xs| / 2 * Log2(|xs|)
  {
    hide Exchanged;
    h, moves := xs, [];
    NothingExchanged(xs);
    var i := |h| / 2;
    while i > 0
      invariant 0 <= i <= |h| / 2
      invariant |h| == |xs| && h == Exchanged(xs, moves)
      invariant HeapFrom(h, i)
      invariant |moves| <= (|h| / 2 - i) * Log2(|h|)
    {
      i := i - 1;
      ghost var here;
      h, here := SiftDown(h, i, i);
      OneMore(|h| / 2 - i - 1, Log2(|h|));
      ExchangeMore(xs, moves, here);
      moves := moves + here;
    }
  }

  lemma OneMore(k: nat, cost: nat)
    ensures (k + 1) * cost == k * cost + cost
  {
  }

  // ---------- the heap of a set ----------

  /** A heap without repeats that holds exactly `s`. */
  ghost predicate HeapOf(h: seq<nat>, s: set<nat>) {
    IsHeap(h) && Distinct(h) && Elements(h) == s
  }

  lemma CountsDistinct(xs: seq<nat>)
    requires forall x :: multiset(xs)[x] <= 1
    ensures Distinct(xs)
  {
    forall i, j | 0 <= i < j < |xs| ensures xs[i] != xs[j] {
      assert xs == xs[..j] + xs[j..];
      assert multiset(xs) == multiset(xs[..j]) + multiset(xs[j..]);
      assert xs[i] in xs[..j] && xs[j] in xs[j..];
      assert xs[i] in multiset(xs[..j]) && xs[j] in multiset(xs[j..]);
      assert multiset(xs)[xs[i]] <= 1;
    }
  }

  lemma PushedHeapOf(h: seq<nat>, x: nat, r: seq<nat>, s: set<nat>)
    requires HeapOf(h, s) && x !in s
    requires IsHeap(r) && multiset(r) == multiset(h) + multiset([x])
    ensures HeapOf(r, s + {x})
  {
    forall y: nat ensures multiset(r)[y] <= 1 { DistinctCount(h, y); }
    CountsDistinct(r);
    forall y ensures y in Elements(r) <==> y in s + {x} {
      assert y in r <==> y in multiset(r);
      assert y in h <==> y in multiset(h);
    }
  }

  lemma PoppedHeapOf(h: seq<nat>, r: seq<nat>, s: set<nat>)
    requires HeapOf(h, s) && h != []
    requires IsHeap(r) && multiset(h) == multiset(r) + multiset([h[0]])
    ensures HeapOf(r, s - {h[0]})
  {
    forall y: nat ensures multiset(r)[y] == if y in s && y != h[0] then 1 else 0 {
      DistinctCount(h, y);
      assert multiset(h)[y] == multiset(r)[y] + multiset([h[0]])[y];
    }
    CountsDistinct(r);
    assert forall y :: y in r <==> y in multiset(r);
  }

  lemma HeapIs(h: seq<nat>, s: set<nat>)
    requires HeapOf(h, s)
    ensures IsHeap(h)
  {
  }

  lemma HeapOfSize(h: seq<nat>, s: set<nat>)
    requires HeapOf(h, s)
    ensures |h| == |s|
  {
    DistinctSize(h);
  }
}
