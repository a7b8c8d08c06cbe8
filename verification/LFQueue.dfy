/** The ring queue: a store, two indices and a separately kept element counter. */
module LFQueues {

  /** One more than the largest value of the 64-bit counter. */
  const WORD := 0x1_0000_0000_0000_0000

  /** The shared memory of a queue. */
  datatype Shared<T> = Shared(store: seq<T>, read: nat, write: nat, count: nat)

  ghost predicate SharedOk<T>(q: Shared<T>) {
    0 < |q.store| < WORD && q.read < |q.store| && q.write < |q.store| && q.count < WORD
  }

  // ----- the atomic accesses -----

  function Following(i: nat, n: nat): (j: nat)
    requires i < n
    ensures j < n
  {
    (i + 1) % n
  }

  function Increment(count: nat): nat {
    (count + 1) % WORD
  }

  function Decrement(count: nat): nat {
    (count + WORD - 1) % WORD
  }

  lemma FollowingIs(i: nat, n: nat)
    requires i < n
    ensures Following(i, n) == if i + 1 == n then 0 else i + 1
  {
    if i + 1 == n {
      assert n % n == 0;
    }
  }

  /** The counter stays a difference modulo the word. */
  lemma CountUp(count: nat, difference: int)
    requires count == difference % WORD
    ensures Increment(count) == (difference + 1) % WORD
  {
  }

  lemma CountDown(count: nat, difference: int)
    requires count == difference % WORD
    ensures Decrement(count) == (difference - 1) % WORD
  {
  }

  // ----- what is in the queue -----

  /** The unread elements, oldest first. */
  function Contents<T>(q: Shared<T>): seq<T>
    requires q.read <= |q.store| && q.write <= |q.store|
  {
    if q.read <= q.write then q.store[q.read..q.write] else q.store[q.read..] + q.store[..q.write]
  }

  lemma PushContents<T>(q: Shared<T>, v: T, count: nat)
    requires SharedOk(q) && |Contents(q)| + 1 < |q.store|
    ensures Contents(Shared(q.store[q.write := v], q.read, Following(q.write, |q.store|), count))
         == Contents(q) + [v]
  {
    FollowingIs(q.write, |q.store|);
  }

  /** Writing into the last free slot makes the queue look empty. */
  lemma PushAnyContents<T>(q: Shared<T>, v: T, count: nat)
    requires SharedOk(q)
    ensures Contents(Shared(q.store[q.write := v], q.read, Following(q.write, |q.store|), count))
         == Remembered(Contents(q) + [v], |q.store|)
  {
    FollowingIs(q.write, |q.store|);
    if |Contents(q)| + 1 < |q.store| {
      PushContents(q, v, count);
    } else {
      assert (Contents(q) + [v])[|q.store|..] == [];
    }
  }

  lemma PopContents<T>(q: Shared<T>, count: nat)
    requires SharedOk(q) && q.read != q.write
    ensures Contents(q) != [] && q.store[q.read] == Contents(q)[0]
    ensures Contents(Shared(q.store, Following(q.read, |q.store|), q.write, count)) == Contents(q)[1..]
  {
    FollowingIs(q.read, |q.store|);
  }

  /** The shared memory after a push, or a pop, that nothing interrupts. */
  function PushedAlone<T>(q: Shared<T>, v: T): Shared<T>
    requires SharedOk(q)
  {
    Shared(q.store[q.write := v], q.read, Following(q.write, |q.store|), Increment(q.count))
  }

  /** The shared memory after pushing these elements without a read in between. */
  function PushedAll<T>(q: Shared<T>, vs: seq<T>): (r: Shared<T>)
    requires SharedOk(q)
    ensures SharedOk(r) && |r.store| == |q.store| && r.read == q.read
  {
    if vs == [] then q else PushedAlone(PushedAll(q, vs[..|vs| - 1]), vs[|vs| - 1])
  }

  lemma PushedOne<T>(q: Shared<T>, vs: seq<T>, v: T)
    requires SharedOk(q)
    ensures PushedAll(q, vs + [v]) == PushedAlone(PushedAll(q, vs), v)
  {
    assert (vs + [v])[..|vs|] == vs;
  }

  lemma {:induction false} PushedTwice<T>(q: Shared<T>, vs: seq<T>, ws: seq<T>)
    requires SharedOk(q)
    ensures PushedAll(PushedAll(q, vs), ws) == PushedAll(q, vs + ws)
  {
    if ws == [] {
      assert vs + ws == vs;
    } else {
      var init, v := ws[..|ws| - 1], ws[|ws| - 1];
      PushedTwice(q, vs, init);
      PushedOne(q, vs + init, v);
      assert vs + ws == vs + init + [v];
    }
  }

  /** What a ring of n slots still shows of a history of pushes: whole turns round the ring are lost. */
  function Remembered<T>(s: seq<T>, n: nat): seq<T>
    requires n > 0
  {
    if |s| < n then s else Remembered(s[n..], n)
  }

  lemma {:induction false} RememberedOn<T>(s: seq<T>, vs: seq<T>, n: nat)
    requires n > 0
    ensures Remembered(Remembered(s, n) + vs, n) == Remembered(s + vs, n)
    decreases |s|
  {
    if |s| >= n {
      RememberedOn(s[n..], vs, n);
      assert (s + vs)[n..] == s[n..] + vs;
    }
  }

  /** Exactly the whole turns are lost: fewer than n elements, the last ones, are shown. */
  lemma {:induction false} RememberedIs<T>(s: seq<T>, n: nat) returns (turns: nat)
    requires n > 0
    ensures turns * n <= |s| < turns * n + n
    ensures Remembered(s, n) == s[turns * n..]
    decreases |s|
  {
    turns := 0;
    if |s| >= n {
      var others := RememberedIs(s[n..], n);
      turns := others + 1;
      assert turns * n == others * n + n;
    }
  }

  /** No push checks for space: after any number of pushes the queue holds what the ring remembers
      of its contents and all that was pushed. */
  lemma {:induction false} PushedAllContents<T>(q: Shared<T>, vs: seq<T>)
    requires SharedOk(q)
    ensures Contents(PushedAll(q, vs)) == Remembered(Contents(q) + vs, |q.store|)
  {
    hide Contents, Remembered;
    if vs == [] {
      assert Contents(q) + vs == Contents(q);
      ContentsFit(q);
    } else {
      var init, v := vs[..|vs| - 1], vs[|vs| - 1];
      var p := PushedAll(q, init);
      PushedAllContents(q, init);
      PushAnyContents(p, v, Increment(p.count));
      RememberedOn(Contents(q) + init, [v], |q.store|);
      assert Contents(q) + vs == Contents(q) + init + [v];
    }
  }

  lemma ContentsFit<T>(q: Shared<T>)
    requires SharedOk(q)
    ensures Remembered(Contents(q), |q.store|) == Contents(q)
  {
  }

  lemma {:induction false} PushedAllCount<T>(q: Shared<T>, vs: seq<T>)
    requires SharedOk(q)
    ensures PushedAll(q, vs).count == (q.count + |vs|) % WORD
  {
    hide Increment;
    if vs == [] {
      assert q.count < WORD;
    } else {
      var init := vs[..|vs| - 1];
      PushedAllCount(q, init);
      CountUp(PushedAll(q, init).count, q.count + |init|);
    }
  }

  /** With room for all of them the elements are appended. */
  lemma PushedWithRoom<T>(q: Shared<T>, vs: seq<T>)
    requires SharedOk(q) && q.count == |Contents(q)| && |Contents(q)| + |vs| < |q.store|
    ensures var r := PushedAll(q, vs);
            Contents(r) == Contents(q) + vs && r.count == |Contents(r)|
  {
    hide Contents, PushedAll;
    PushedAllContents(q, vs);
    PushedAllCount(q, vs);
  }

  function PoppedAlone<T>(q: Shared<T>): Shared<T>
    requires SharedOk(q)
  {
    Shared(q.store, Following(q.read, |q.store|), q.write, Decrement(q.count))
  }

  class LFQueue<T(0)> {
    const store: array<T>
    var nextReadIndex: nat
    var nextWriteIndex: nat
    var numElements: nat

    ghost function Snapshot(): Shared<T>
      reads this, store
    {
      Shared(store[..], nextReadIndex, nextWriteIndex, numElements)
    }

    /** Between calls of a single thread the counter is the number of unread elements. */
    ghost predicate Valid()
      reads this, store
    {
      SharedOk(Snapshot()) && numElements == |Contents(Snapshot())|
    }

    constructor (n: nat)
      requires 0 < n < WORD
      ensures Valid() && Contents(Snapshot()) == [] && store.Length == n && fresh(store)
    {
      store := new T[n];
      nextReadIndex, nextWriteIndex, numElements := 0, 0, 0;
    }

    method GetNextToWriteTo() returns (slot: nat)
      requires SharedOk(Snapshot())
      ensures slot == nextWriteIndex && slot < store.Length
    {
      slot := nextWriteIndex;
    }

    method UpdateWriteIndex()
      requires SharedOk(Snapshot())
      modifies this`nextWriteIndex, this`numElements
      ensures nextWriteIndex == Following(old(nextWriteIndex), store.Length)
      ensures numElements == Increment(old(numElements))
    {
      nextWriteIndex := (nextWriteIndex + 1) % store.Length;
      numElements := (numElements + 1) % WORD;
    }

    /** The slot of the oldest element, or -1 for null. There is no other test for emptiness. */
    method GetNextToRead() returns (slot: int)
      requires SharedOk(Snapshot())
      ensures -1 <= slot < store.Length
      ensures slot == if nextReadIndex == nextWriteIndex then -1 else nextReadIndex
      ensures slot == -1 <==> Contents(Snapshot()) == []
      ensures slot != -1 ==> store[slot] == Contents(Snapshot())[0]
    {
      if nextReadIndex != nextWriteIndex {
        PopContents(Snapshot(), 0);
      }
      slot := if nextReadIndex == nextWriteIndex then -1 else nextReadIndex;
    }

    method UpdataReadIndex()
      requires SharedOk(Snapshot())
      modifies this`nextReadIndex, this`numElements
      ensures nextReadIndex == Following(old(nextReadIndex), store.Length)
      ensures numElements == Decrement(old(numElements))
    {
      nextReadIndex := (nextReadIndex + 1) % store.Length;
      numElements := (numElements + WORD - 1) % WORD;
    }

    method Size() returns (n: nat)
      ensures n == numElements
    {
      n := numElements;
    }

    /** Write to the next slot, then publish it: what every producer of the exchange does, without
        a look at the space. A push into the last free slot makes the queue look empty. */
    method Push(v: T)
      requires SharedOk(Snapshot())
      modifies this`nextWriteIndex, this`numElements, store
      ensures Snapshot() == PushedAlone(old(Snapshot()), v) && SharedOk(Snapshot())
      ensures var before := old(Contents(Snapshot()));
              Contents(Snapshot()) == if |before| + 1 < store.Length then before + [v] else []
      ensures old(Valid() && |Contents(Snapshot())| + 1 < store.Length) ==> Valid()
    {
      PushAnyContents(Snapshot(), v, Increment(numElements));
      var slot := GetNextToWriteTo();
      store[slot] := v;
      UpdateWriteIndex();
    }

    /** Take what GetNextToRead showed off the queue. */
    method Pop()
      requires Valid() && Contents(Snapshot()) != []
      modifies this`nextReadIndex, this`numElements
      ensures Valid() && Contents(Snapshot()) == old(Contents(Snapshot()))[1..]
      ensures Snapshot() == PoppedAlone(old(Snapshot()))
    {
      PopContents(Snapshot(), Decrement(numElements));
      UpdataReadIndex();
    }
  }
}
