/** The slot allocator: a vector of objects with in-use flags and a cursor that always points
    at a free slot, found by a circular scan. */
module MemPools {

  /** Flags and cursor, without the objects. */
  datatype Pool = Pool(free: seq<bool>, cursor: nat)

  /** Position d places after from, going round. */
  function Around(from: nat, d: nat, n: nat): nat
    requires from < n && d < n
  {
    if from + d < n then from + d else from + d - n
  }

  /** First free slot at distance d or more from the start; the start itself when there is none. */
  function Scan(free: seq<bool>, from: nat, d: nat): (i: nat)
    requires from < |free| && d <= |free|
    ensures i < |free|
    decreases |free| - d
  {
    if d == |free| then from
    else if free[Around(from, d, |free|)] then Around(from, d, |free|)
    else Scan(free, from, d + 1)
  }

  predicate Ready(p: Pool) {
    p.cursor < |p.free| && p.free[p.cursor]
  }

  /** The cursor slot is taken and the cursor moves on. */
  function Take(p: Pool): Pool
    requires Ready(p)
  {
    var free := p.free[p.cursor := false];
    Pool(free, Scan(free, p.cursor, 0))
  }

  function Give(p: Pool, slot: nat): Pool
    requires slot < |p.free|
  {
    p.(free := p.free[slot := true])
  }

  ghost predicate Exhausted(free: seq<bool>) {
    forall i :: 0 <= i < |free| ==> !free[i]
  }

  lemma AroundCovers(from: nat, i: nat, n: nat) returns (d: nat)
    requires from < n && i < n
    ensures d < n && Around(from, d, n) == i
  {
    d := if from <= i then i - from else i + n - from;
  }

  /** The scan finds a free slot unless there is none anywhere. */
  lemma {:induction false} ScanFinds(free: seq<bool>, from: nat, d: nat)
    requires from < |free| && d <= |free|
    requires forall e :: 0 <= e < d ==> !free[Around(from, e, |free|)]
    ensures free[Scan(free, from, d)] || Exhausted(free)
    decreases |free| - d
  {
    if d == |free| {
      forall i | 0 <= i < |free| ensures !free[i] {
        var e := AroundCovers(from, i, |free|);
      }
    } else if !free[Around(from, d, |free|)] {
      ScanFinds(free, from, d + 1);
    }
  }

  class MemPool<T(0)> {
    const objects: array<T>
    const isFree: array<bool>
    var nextFreeIndex: nat

    ghost predicate Valid()
      reads this, isFree
    {
      && objects.Length == isFree.Length
      && objects as object != isFree
      && Ready(Flags())
    }

    ghost function Flags(): Pool
      reads this, isFree
    {
      Pool(isFree[..], nextFreeIndex)
    }

    constructor (n: nat)
      requires n > 0
      ensures Valid() && fresh(objects) && fresh(isFree)
      ensures objects.Length == n && nextFreeIndex == 0
      ensures forall i :: 0 <= i < n ==> isFree[i]
    {
      objects := new T[n];
      isFree := new bool[n](_ => true);
      nextFreeIndex := 0;
    }

    /** Moves the cursor to the first free slot at or after it; fatal stands for the exit when
        a full turn finds none. */
    method UpdateNextFreeIndex() returns (fatal: bool)
      requires nextFreeIndex < isFree.Length
      modifies this`nextFreeIndex
      ensures nextFreeIndex == Scan(isFree[..], old(nextFreeIndex), 0)
      ensures fatal <==> Exhausted(isFree[..])
      ensures !fatal ==> isFree[nextFreeIndex]
    {
      var initialFreeIndex := nextFreeIndex;
      ghost var d := 0;
      ghost var n := isFree.Length;
      while !isFree[nextFreeIndex]
        invariant d < n && nextFreeIndex == Around(initialFreeIndex, d, n)
        invariant forall e :: 0 <= e < d ==> !isFree[Around(initialFreeIndex, e, n)]
        invariant Scan(isFree[..], initialFreeIndex, d) == Scan(isFree[..], initialFreeIndex, 0)
        decreases n - d
      {
        nextFreeIndex := nextFreeIndex + 1;
        if nextFreeIndex == isFree.Length {
          nextFreeIndex := 0;
        }
        d := d + 1;
        if nextFreeIndex == initialFreeIndex {
          assert d == n;
          forall i | 0 <= i < n ensures !isFree[i] {
            var e := AroundCovers(initialFreeIndex, i, n);
            assert !isFree[Around(initialFreeIndex, e, n)];
          }
          return true;
        }
      }
      return false;
    }

    /** Hands out the cursor slot. The flag that the source asserts is implied by Valid; fatal
        is reported exactly when the slot handed out was the last free one. */
    method Allocate(v: T) returns (slot: nat, fatal: bool)
      requires Valid()
      modifies this`nextFreeIndex, objects, isFree
      ensures slot == old(nextFreeIndex) && slot < isFree.Length && old(isFree[slot])
      ensures Flags() == Take(old(Flags()))
      ensures isFree[..] == old(isFree[..])[slot := false]
      ensures objects[..] == old(objects[..])[slot := v]
      ensures fatal <==> Exhausted(isFree[..])
      ensures !fatal ==> Valid()
    {
      slot := nextFreeIndex;
      isFree[slot] := false;
      objects[slot] := v;
      fatal := UpdateNextFreeIndex();
    }

    method Deallocate(slot: nat)
      requires Valid()
      requires slot < isFree.Length && !isFree[slot]
      modifies isFree
      ensures Flags() == Give(old(Flags()), slot)
      ensures isFree[..] == old(isFree[..])[slot := true]
      ensures Valid()
    {
      isFree[slot] := true;
    }
  }

  // ----- runs of a pool -----

  datatype PoolOp = TakeOne | GiveBack(slot: nat)

  function FreeCount(free: seq<bool>): nat {
    if free == [] then 0 else (if free[0] then 1 else 0) + FreeCount(free[1..])
  }

  /** What callers owe: return only slots they hold, and never take the last free slot. */
  predicate OpOk(p: Pool, op: PoolOp) {
    match op
    case TakeOne => FreeCount(p.free) >= 2
    case GiveBack(slot) => slot < |p.free| && !p.free[slot]
  }

  function PoolStep(p: Pool, op: PoolOp): Pool
    requires Ready(p) && OpOk(p, op)
  {
    match op
    case TakeOne => Take(p)
    case GiveBack(slot) => Give(p, slot)
  }

  lemma {:induction false} FreeCountUpdate(free: seq<bool>, i: nat, b: bool)
    requires i < |free|
    ensures FreeCount(free[i := b]) == FreeCount(free) - (if free[i] then 1 else 0) + if b then 1 else 0
  {
    var f := free[i := b];
    if i == 0 {
      assert f[1..] == free[1..];
    } else {
      assert f[1..] == free[1..][i - 1 := b];
      FreeCountUpdate(free[1..], i - 1, b);
    }
  }

  lemma {:induction false} NoneFree(free: seq<bool>)
    ensures FreeCount(free) == 0 <==> Exhausted(free)
  {
    if free != [] {
      NoneFree(free[1..]);
      if Exhausted(free[1..]) && !free[0] {
        forall i | 0 <= i < |free| ensures !free[i] {
          assert i == 0 || free[i] == free[1..][i - 1];
        }
      }
      if Exhausted(free) {
        forall i | 0 <= i < |free[1..]| ensures !free[1..][i] {
          assert free[1..][i] == free[i + 1];
        }
      }
    }
  }

  /** Taking a slot runs out of space exactly when it was the only free one, so a pool of n
      slots serves n - 1. */
  lemma TakeIsFatal(p: Pool)
    requires Ready(p)
    ensures Exhausted(Take(p).free) <==> FreeCount(p.free) == 1
    ensures !Exhausted(Take(p).free) ==> Ready(Take(p))
  {
    var free := p.free[p.cursor := false];
    FreeCountUpdate(p.free, p.cursor, false);
    NoneFree(free);
    ScanFinds(free, p.cursor, 0);
  }

  /** Slots handed out and not returned after the operations, starting from held. */
  ghost function HeldAfter(p: Pool, ops: seq<PoolOp>, held: set<nat>): set<nat>
    requires Ready(p) && OpsOk(p, ops)
    decreases |ops|
  {
    if ops == [] then held
    else
      var held' := match ops[0]
                   case TakeOne => held + {p.cursor}
                   case GiveBack(slot) => held - {slot};
      StepReady(p, ops[0]);
      HeldAfter(PoolStep(p, ops[0]), ops[1..], held')
  }

  ghost predicate OpsOk(p: Pool, ops: seq<PoolOp>)
    requires Ready(p)
    decreases |ops|
  {
    ops != [] ==>
      && OpOk(p, ops[0])
      && (StepReady(p, ops[0]); OpsOk(PoolStep(p, ops[0]), ops[1..]))
  }

  /** The pool after the operations. */
  ghost function PoolRun(p: Pool, ops: seq<PoolOp>): (q: Pool)
    requires Ready(p) && OpsOk(p, ops)
    ensures Ready(q)
    decreases |ops|
  {
    if ops == [] then p
    else
      StepReady(p, ops[0]);
      PoolRun(PoolStep(p, ops[0]), ops[1..])
  }

  lemma StepReady(p: Pool, op: PoolOp)
    requires Ready(p) && OpOk(p, op)
    ensures Ready(PoolStep(p, op))
  {
    if op.TakeOne? {
      TakeIsFatal(p);
      FreeCountUpdate(p.free, p.cursor, false);
    }
  }

  ghost function InUse(free: seq<bool>): set<nat> {
    set i: nat | i < |free| && !free[i]
  }

  /** In every run the slots in use are exactly those handed out and not returned, and the slot
      handed out next is none of them. */
  lemma {:induction false} PoolRunSafe(p: Pool, ops: seq<PoolOp>)
    requires Ready(p) && OpsOk(p, ops)
    ensures HeldAfter(p, ops, InUse(p.free)) == InUse(PoolRun(p, ops).free)
    ensures PoolRun(p, ops).cursor !in HeldAfter(p, ops, InUse(p.free))
    decreases |ops|
  {
    if ops != [] {
      StepReady(p, ops[0]);
      var q := PoolStep(p, ops[0]);
      match ops[0] {
        case TakeOne => assert InUse(q.free) == InUse(p.free) + {p.cursor};
        case GiveBack(slot) => assert InUse(q.free) == InUse(p.free) - {slot};
      }
      PoolRunSafe(q, ops[1..]);
    }
  }
}
