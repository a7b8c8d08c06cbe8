/** Circular doubly linked lists over pool slots: what unlinking and linking a node do to the
    sequence of slots that the ring visits. */
module Rings {
  import opened Sequences

  /** A pool object with its two neighbours, -1 for none. */
  datatype Node<T> = Node(value: T, prev: int, next: int)

  function Succ(i: nat, n: nat): nat
    requires i < n
  {
    if i + 1 == n then 0 else i + 1
  }

  function Pred(i: nat, n: nat): nat
    requires i < n
  {
    if i == 0 then n - 1 else i - 1
  }

  ghost predicate Within(s: seq<int>, n: nat) {
    forall i :: 0 <= i < |s| ==> 0 <= s[i] < n
  }

  ghost predicate Injective(s: seq<int>) {
    forall i, j :: 0 <= i < j < |s| ==> s[i] != s[j]
  }

  /** The node at position i of s has its neighbours in s as neighbours. */
  ghost predicate LinkedAt<T>(a: seq<Node<T>>, s: seq<int>, i: nat)
    requires Within(s, |a|) && i < |s|
  {
    a[s[i]].next == s[Succ(i, |s|)] && a[s[i]].prev == s[Pred(i, |s|)]
  }

  /** Following next from s[0] visits s in order and returns; prev goes the other way. */
  ghost predicate Ring<T>(a: seq<Node<T>>, s: seq<int>) {
    Within(s, |a|) && forall i :: 0 <= i < |s| ==> LinkedAt(a, s, i)
  }

  /** The neighbours of x joined, x detached. */
  function Unlink<T>(a: seq<Node<T>>, x: int): (b: seq<Node<T>>)
    requires 0 <= x < |a| && 0 <= a[x].prev < |a| && 0 <= a[x].next < |a|
    ensures |b| == |a|
  {
    var p, n := a[x].prev, a[x].next;
    var a1 := a[p := a[p].(next := n)];
    var a2 := a1[n := a1[n].(prev := p)];
    a2[x := a2[x].(prev := -1, next := -1)]
  }

  /** x put between p and n. */
  function Link<T>(a: seq<Node<T>>, p: int, n: int, x: int): (b: seq<Node<T>>)
    requires 0 <= p < |a| && 0 <= n < |a| && 0 <= x < |a|
    ensures |b| == |a|
  {
    var a1 := a[p := a[p].(next := x)];
    var a2 := a1[n := a1[n].(prev := x)];
    a2[x := a2[x].(prev := p, next := n)]
  }

  /** Outside s nothing changes; nowhere does a value change. */
  ghost predicate OnlyLinks<T>(a: seq<Node<T>>, b: seq<Node<T>>, s: seq<int>) {
    && |a| == |b|
    && (forall y :: 0 <= y < |a| ==> a[y].value == b[y].value)
    && (forall y :: 0 <= y < |a| && y !in s ==> a[y] == b[y])
  }

  /** b is a with next of p set to np and prev of n set to pn, for every node but x. */
  ghost predicate Rewired<T>(a: seq<Node<T>>, b: seq<Node<T>>, x: int, p: int, np: int, n: int, pn: int) {
    && |a| == |b|
    && (forall y :: 0 <= y < |a| && y != x ==>
          && b[y].next == (if y == p then np else a[y].next)
          && b[y].prev == (if y == n then pn else a[y].prev))
  }

  lemma UnlinkRewires<T>(a: seq<Node<T>>, x: int)
    requires 0 <= x < |a| && 0 <= a[x].prev < |a| && 0 <= a[x].next < |a|
    ensures Rewired(a, Unlink(a, x), x, a[x].prev, a[x].next, a[x].next, a[x].prev)
  {
  }

  lemma UnlinkOnlyLinks<T>(a: seq<Node<T>>, x: int, s: seq<int>)
    requires 0 <= x < |a| && 0 <= a[x].prev < |a| && 0 <= a[x].next < |a|
    requires x in s && a[x].prev in s && a[x].next in s
    ensures OnlyLinks(a, Unlink(a, x), s)
  {
  }

  lemma LinkRewires<T>(a: seq<Node<T>>, p: int, n: int, x: int)
    requires 0 <= p < |a| && 0 <= n < |a| && 0 <= x < |a|
    ensures Rewired(a, Link(a, p, n, x), x, p, x, n, x)
    ensures Link(a, p, n, x)[x].prev == p && Link(a, p, n, x)[x].next == n
  {
  }

  lemma LinkOnlyLinks<T>(a: seq<Node<T>>, p: int, n: int, x: int, s: seq<int>)
    requires 0 <= p < |a| && 0 <= n < |a| && 0 <= x < |a|
    requires x in s && p in s && n in s
    ensures OnlyLinks(a, Link(a, p, n, x), s)
  {
  }

  /** Position in s of entry i of RemoveAt(s, k). */
  function Skip(i: nat, k: nat): nat {
    if i < k then i else i + 1
  }

  lemma SkipNeighbours(i: nat, k: nat, n: nat)
    requires k < n && 2 <= n && i < n - 1
    ensures Skip(Succ(i, n - 1), k)
         == if Skip(i, k) == Pred(k, n) then Succ(k, n) else Succ(Skip(i, k), n)
    ensures Skip(Pred(i, n - 1), k)
         == if Skip(i, k) == Succ(k, n) then Pred(k, n) else Pred(Skip(i, k), n)
  {
  }

  lemma RingUnlink<T>(a: seq<Node<T>>, s: seq<int>, k: nat)
    requires Ring(a, s) && Injective(s) && k < |s| && |s| >= 2
    ensures 0 <= a[s[k]].prev < |a| && 0 <= a[s[k]].next < |a|
    ensures Ring(Unlink(a, s[k]), RemoveAt(s, k))
    ensures OnlyLinks(a, Unlink(a, s[k]), s)
  {
    assert LinkedAt(a, s, k);
    UnlinkRewires(a, s[k]);
    UnlinkOnlyLinks(a, s[k], s);
    RingRewiredOut(a, Unlink(a, s[k]), s, k);
  }

  lemma RemovedIndex(s: seq<int>, k: nat, i: nat)
    requires k < |s| && i < |s| - 1
    ensures RemoveAt(s, k)[i] == s[Skip(i, k)]
  {
  }

  lemma SameSlot(s: seq<int>, i: nat, j: nat)
    requires Injective(s) && i < |s| && j < |s|
    ensures s[i] == s[j] <==> i == j
  {
  }

  lemma RemovedWithin(s: seq<int>, k: nat, n: nat)
    requires k < |s| && Within(s, n)
    ensures Within(RemoveAt(s, k), n)
  {
  }

  lemma RingRewiredOut<T>(a: seq<Node<T>>, b: seq<Node<T>>, s: seq<int>, k: nat)
    requires Ring(a, s) && Injective(s) && k < |s| && |s| >= 2
    requires Rewired(a, b, s[k], s[Pred(k, |s|)], s[Succ(k, |s|)], s[Succ(k, |s|)], s[Pred(k, |s|)])
    ensures Ring(b, RemoveAt(s, k))
  {
    var n := |s|;
    var r := RemoveAt(s, k);
    RemovedWithin(s, k, |b|);
    forall i | 0 <= i < |r| ensures LinkedAt(b, r, i) {
      var j := Skip(i, k);
      SameSlot(s, j, k);
      SameSlot(s, j, Pred(k, n));
      SameSlot(s, j, Succ(k, n));
      RemovedIndex(s, k, i);
      RemovedIndex(s, k, Succ(i, |r|));
      RemovedIndex(s, k, Pred(i, |r|));
      assert LinkedAt(a, s, j);
      SkipNeighbours(i, k, n);
    }
  }

  /** Neighbours of a node about to be inserted at position k. */
  function Left(k: nat, n: nat): nat
    requires 0 < n && k <= n
  {
    if k == 0 then n - 1 else k - 1
  }

  function Right(k: nat, n: nat): nat
    requires 0 < n && k <= n
  {
    if k == n then 0 else k
  }

  lemma RingLink<T>(a: seq<Node<T>>, s: seq<int>, k: nat, x: int)
    requires Ring(a, s) && Injective(s) && s != [] && k <= |s|
    requires 0 <= x < |a| && x !in s
    ensures Ring(Link(a, s[Left(k, |s|)], s[Right(k, |s|)], x), Inserted(s, k, x))
    ensures OnlyLinks(a, Link(a, s[Left(k, |s|)], s[Right(k, |s|)], x), s + [x])
  {
    var p, q := s[Left(k, |s|)], s[Right(k, |s|)];
    LinkRewires(a, p, q, x);
    LinkOnlyLinks(a, p, q, x, s + [x]);
    RingRewiredIn(a, Link(a, p, q, x), s, k, x);
  }

  lemma InsertedIndex(s: seq<int>, k: nat, x: int, j: nat)
    requires k <= |s| && j < |s|
    ensures Inserted(s, k, x)[Skip(j, k)] == s[j] && Inserted(s, k, x)[k] == x
  {
  }

  lemma SkipInto(j: nat, k: nat, n: nat)
    requires 0 < n && j < n && k <= n
    ensures Succ(Skip(j, k), n + 1) == if j == Left(k, n) then k else Skip(Succ(j, n), k)
    ensures Pred(Skip(j, k), n + 1) == if j == Right(k, n) then k else Skip(Pred(j, n), k)
    ensures Succ(k, n + 1) == Skip(Right(k, n), k) && Pred(k, n + 1) == Skip(Left(k, n), k)
  {
  }

  lemma InsertedWithin(s: seq<int>, k: nat, x: int, n: nat)
    requires k <= |s| && Within(s, n) && 0 <= x < n
    ensures Within(Inserted(s, k, x), n)
  {
  }

  lemma RewiredNew<T>(b: seq<Node<T>>, s: seq<int>, k: nat, x: int)
    requires s != [] && k <= |s| && 0 <= x < |b| && Within(s, |b|)
    requires b[x].prev == s[Left(k, |s|)] && b[x].next == s[Right(k, |s|)]
    ensures Within(Inserted(s, k, x), |b|) && LinkedAt(b, Inserted(s, k, x), k)
  {
    InsertedWithin(s, k, x, |b|);
    SkipInto(0, k, |s|);
    InsertedIndex(s, k, x, Left(k, |s|));
    InsertedIndex(s, k, x, Right(k, |s|));
  }

  lemma RewiredOld<T>(a: seq<Node<T>>, b: seq<Node<T>>, s: seq<int>, k: nat, x: int, j: nat)
    requires Within(s, |a|) && Injective(s) && k <= |s| && j < |s| && LinkedAt(a, s, j)
    requires 0 <= x < |a| && s[j] != x
    requires Rewired(a, b, x, s[Left(k, |s|)], x, s[Right(k, |s|)], x)
    ensures Within(Inserted(s, k, x), |b|) && LinkedAt(b, Inserted(s, k, x), Skip(j, k))
  {
    hide Injective, Inserted;
    var n := |s|;
    InsertedWithin(s, k, x, |b|);
    SkipInto(j, k, n);
    SameSlot(s, j, Left(k, n));
    SameSlot(s, j, Right(k, n));
    InsertedIndex(s, k, x, j);
    InsertedIndex(s, k, x, Succ(j, n));
    InsertedIndex(s, k, x, Pred(j, n));
  }

  lemma RingRewiredIn<T>(a: seq<Node<T>>, b: seq<Node<T>>, s: seq<int>, k: nat, x: int)
    requires Ring(a, s) && Injective(s) && s != [] && k <= |s|
    requires 0 <= x < |a| && x !in s
    requires Rewired(a, b, x, s[Left(k, |s|)], x, s[Right(k, |s|)], x)
    requires b[x].prev == s[Left(k, |s|)] && b[x].next == s[Right(k, |s|)]
    ensures Ring(b, Inserted(s, k, x))
  {
    var r := Inserted(s, k, x);
    InsertedWithin(s, k, x, |b|);
    forall i | 0 <= i < |r| ensures LinkedAt(b, r, i) {
      if i == k {
        RewiredNew(b, s, k, x);
      } else {
        RewiredOld(a, b, s, k, x, if i < k then i else i - 1);
      }
    }
  }

  /** A ring only depends on the links of its own nodes. */
  lemma RingFrame<T>(a: seq<Node<T>>, b: seq<Node<T>>, s: seq<int>)
    requires Ring(a, s) && |a| <= |b|
    requires forall i :: 0 <= i < |s| ==> b[s[i]].next == a[s[i]].next && b[s[i]].prev == a[s[i]].prev
    ensures Ring(b, s)
  {
    forall i | 0 <= i < |s| ensures LinkedAt(b, s, i) {
      assert LinkedAt(a, s, i);
    }
  }

  /** A node linked to itself is a ring of one. */
  lemma RingSingle<T>(a: seq<Node<T>>, x: int)
    requires 0 <= x < |a| && a[x].prev == x && a[x].next == x
    ensures Ring(a, [x])
  {
    assert LinkedAt(a, [x], 0);
  }

  /** The pointer writes of an unlink, in the pool's own array. */
  method UnlinkInPlace<T>(a: array<Node<T>>, x: int)
    requires 0 <= x < a.Length && 0 <= a[x].prev < a.Length && 0 <= a[x].next < a.Length
    modifies a
    ensures a[..] == Unlink(old(a[..]), x)
  {
    var before, after := a[x].prev, a[x].next;
    a[before] := a[before].(next := after);
    a[after] := a[after].(prev := before);
    a[x] := a[x].(prev := -1, next := -1);
  }

  /** The pointer writes that put x between two neighbours. */
  method LinkInPlace<T>(a: array<Node<T>>, before: int, after: int, x: int)
    requires 0 <= x < a.Length && 0 <= before < a.Length && 0 <= after < a.Length
    modifies a
    ensures a[..] == Link(old(a[..]), before, after, x)
  {
    a[before] := a[before].(next := x);
    a[after] := a[after].(prev := x);
    a[x] := a[x].(prev := before, next := after);
  }
}
