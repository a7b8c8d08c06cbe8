/** One producer and one consumer on a queue, every load, store and counter update a step of its
    own, under sequential consistency. The consumer is the log writer (guarded by the counter) or
    the matching engine (not guarded); the closer is the logger's destructor, or whoever stops the
    engine. */
module SpscMachine {
  import opened LFQueues

  /** What the producer has done of its current push. */
  datatype Producer<T> =
    | Resting
    | HasSlot(v: T, slot: nat)    // write index loaded for the element's address
    | Filled(v: T)                // element written
    | HasWrite(v: T, w: nat)      // write index loaded for the update
    | Published                   // write index stored, counter not incremented yet

  /** seen is the number of elements published when the write index was loaded. */
  datatype Consumer =
    | Looking                     // about to ask for the next element
    | HasRead(r: nat)             // read index loaded
    | HasBoth(r: nat, w: nat, seen: nat)
    | Showing(answer: int)        // the answer, -1 for null
    | Using(slot: nat)            // about to use the element
    | Used                        // element used, queue not updated yet
    | HasReadAgain(r: nat)        // read index loaded for the update
    | Advanced                    // read index stored, counter not decremented yet
    | Checking                    // about to test the running flag
    | Exited

  /** The destructor: wait for a zero counter, clear the flag, join. */
  datatype Closer = Open | Waiting | SawZero | Cleared | Closed

  /** written: elements published so far; used: elements streamed so far; taken: elements taken
      off so far. */
  datatype System<T> = System(
    q: Shared<T>,
    p: Producer<T>,
    c: Consumer,
    d: Closer,
    running: bool,
    guarded: bool,
    written: seq<T>,
    used: seq<T>,
    taken: nat)

  datatype Move<T> = Push(v: T) | Produce | Consume | Close

  /** Indices held in registers are slots. */
  ghost predicate Typed<T>(s: System<T>) {
    var n := |s.q.store|;
    && SharedOk(s.q)
    && (s.p.HasSlot? ==> s.p.slot < n) && (s.p.HasWrite? ==> s.p.w < n)
    && (s.c.Showing? ==> s.c.answer < n) && (s.c.Using? ==> s.c.slot < n) && (s.c.HasReadAgain? ==> s.c.r < n)
  }

  function ProducerStep<T>(s: System<T>): System<T>
    requires Typed(s)
  {
    match s.p
    case Resting => s
    case HasSlot(v, slot) => s.(q := s.q.(store := s.q.store[slot := v]), p := Filled(v))
    case Filled(v) => s.(p := HasWrite(v, s.q.write))
    case HasWrite(v, w) =>
      s.(q := s.q.(write := Following(w, |s.q.store|)), p := Published, written := s.written + [v])
    case Published => s.(q := s.q.(count := Increment(s.q.count)), p := Resting)
  }

  function ConsumerStep<T>(s: System<T>): System<T>
    requires Typed(s)
  {
    match s.c
    case Looking => s.(c := HasRead(s.q.read))
    case HasRead(r) => s.(c := HasBoth(r, s.q.write, |s.written|))
    case HasBoth(r, w, _) => s.(c := Showing(if r == w then -1 else s.q.read))
    case Showing(slot) =>
      if slot >= 0 && (s.guarded ==> s.q.count != 0) then s.(c := Using(slot)) else s.(c := Checking)
    case Using(slot) => s.(used := s.used + [s.q.store[slot]], c := Used)
    case Used => s.(c := HasReadAgain(s.q.read))
    case HasReadAgain(r) =>
      s.(q := s.q.(read := Following(r, |s.q.store|)), taken := s.taken + 1, c := Advanced)
    case Advanced => s.(q := s.q.(count := Decrement(s.q.count)), c := if s.guarded then Looking else Checking)
    case Checking => s.(c := if s.running then Looking else Exited)
    case Exited => s
  }

  /** The logger's destructor starts when the producer has finished its last push, and its join
      waits for the consumer to return. The matching engine is simply told to stop. */
  function CloserStep<T>(s: System<T>): System<T>
    requires Typed(s)
  {
    if !s.guarded then s.(running := false)
    else match s.d
      case Open => if s.p.Resting? then s.(d := Waiting) else s
      case Waiting => if s.q.count == 0 then s.(d := SawZero) else s
      case SawZero => s.(running := false, d := Cleared)
      case Cleared => if s.c.Exited? then s.(d := Closed) else s
      case Closed => s
  }

  function Step<T>(s: System<T>, m: Move<T>): (s': System<T>)
    requires Typed(s)
    ensures Typed(s') && |s'.q.store| == |s.q.store| && s'.guarded == s.guarded
  {
    match m
    case Push(v) => if s.p.Resting? && s.d.Open? then s.(p := HasSlot(v, s.q.write)) else s
    case Produce => ProducerStep(s)
    case Consume => ConsumerStep(s)
    case Close => CloserStep(s)
  }

  ghost function Run<T>(s: System<T>, ms: seq<Move<T>>): (s': System<T>)
    requires Typed(s)
    ensures Typed(s') && |s'.q.store| == |s.q.store| && s'.guarded == s.guarded
    decreases |ms|
  {
    if ms == [] then s else Run(Step(s, ms[0]), ms[1..])
  }

  /** Published elements not taken off yet. */
  function Outstanding<T>(s: System<T>): int {
    |s.written| - s.taken
  }

  /** What the code never checks: fewer elements outstanding than there are slots. */
  predicate Bounded<T>(s: System<T>) {
    Outstanding(s) < |s.q.store|
  }

  /** Bounded in every state of the run. */
  ghost predicate BoundedRun<T>(s: System<T>, ms: seq<Move<T>>)
    requires Typed(s)
    decreases |ms|
  {
    Bounded(s) && (ms != [] ==> BoundedRun(Step(s, ms[0]), ms[1..]))
  }

  ghost predicate Initial<T>(s: System<T>) {
    && SharedOk(s.q) && s.q.read == 0 && s.q.write == 0 && s.q.count == 0
    && s.p.Resting? && s.c.Looking? && s.d.Open? && s.running
    && s.written == [] && s.used == [] && s.taken == 0
  }

  // ----- slots of consecutive elements -----

  /** The slot of element number k in a ring of n. */
  function SlotOf(k: nat, n: nat): (i: nat)
    requires 0 < n
    ensures i < n
  {
    if k < n then k else SlotOf(k - n, n)
  }

  lemma {:induction false} SlotNext(k: nat, n: nat)
    requires 0 < n
    ensures SlotOf(k + 1, n) == Following(SlotOf(k, n), n)
    decreases k
  {
    FollowingIs(SlotOf(k, n), n);
    if k >= n {
      SlotNext(k - n, n);
    }
  }

  /** Two elements share a slot only when they are a full ring apart. */
  lemma {:induction false} SlotShared(a: nat, b: nat, n: nat)
    requires 0 < n && a <= b <= a + n
    ensures SlotOf(a, n) == SlotOf(b, n) <==> b == a || b == a + n
    decreases a
  {
    if a >= n {
      SlotShared(a - n, b - n, n);
    } else if b >= n {
      assert SlotOf(b, n) == SlotOf(b - n, n);
    }
  }

  // ----- the invariant -----

  /** Counter updates done by the producer and by the consumer. */
  function Increments<T>(s: System<T>): int {
    |s.written| - if s.p.Published? then 1 else 0
  }

  function Decrements<T>(s: System<T>): int {
    s.taken - if s.c.Advanced? then 1 else 0
  }

  function UsedCount<T>(s: System<T>): nat {
    s.taken + if s.c.Used? || s.c.HasReadAgain? then 1 else 0
  }

  ghost predicate IndexInv<T>(s: System<T>) {
    var n := |s.q.store|;
    && 0 < n
    && s.taken <= |s.written| <= s.taken + n
    && s.q.read == SlotOf(s.taken, n) && s.q.write == SlotOf(|s.written|, n)
  }

  /** Every outstanding element is still in its slot. */
  ghost predicate StoreInv<T>(s: System<T>) {
    && 0 < |s.q.store|
    && forall k :: s.taken <= k < |s.written| ==> s.q.store[SlotOf(k, |s.q.store|)] == s.written[k]
  }

  ghost predicate ProducerInv<T>(s: System<T>) {
    && 0 < |s.q.store|
    && var end := SlotOf(|s.written|, |s.q.store|);
    match s.p
    case HasSlot(v, slot) => slot == end
    case Filled(v) => s.q.store[end] == v
    case HasWrite(v, w) => w == end && s.q.store[end] == v
    case _ => true
  }

  ghost predicate ConsumerInv<T>(s: System<T>) {
    && 0 < |s.q.store|
    && var start := SlotOf(s.taken, |s.q.store|);
    match s.c
    case HasRead(r) => r == start
    case HasBoth(r, w, seen) => r == start && s.taken <= seen <= |s.written| && w == SlotOf(seen, |s.q.store|)
    case Showing(slot) => slot == -1 || (slot == start && s.taken < |s.written|)
    case Using(slot) => slot == start && s.taken < |s.written|
    case Used => s.taken < |s.written|
    case HasReadAgain(r) => r == start && s.taken < |s.written|
    case _ => true
  }

  /** Used is what was written, up to where the consumer is. */
  ghost predicate UsedInv<T>(s: System<T>) {
    UsedCount(s) <= |s.written| && s.used == s.written[..UsedCount(s)]
  }

  ghost predicate CountInv<T>(s: System<T>) {
    s.q.count == (Increments(s) - Decrements(s)) % WORD
  }

  /** A guarded consumer only uses elements that the counter already includes. */
  ghost predicate GuardInv<T>(s: System<T>) {
    s.guarded ==> s.taken + (if s.c.Using? || s.c.Used? || s.c.HasReadAgain? then 1 else 0) <= Increments(s)
  }

  ghost predicate CloseInv<T>(s: System<T>) {
    && (!s.d.Open? ==> s.p.Resting?)
    && (s.d.SawZero? || s.d.Cleared? || s.d.Closed? ==> s.taken == |s.written| && !s.c.Advanced?)
    && (s.d.Closed? ==> s.c.Exited?)
    && (s.c.Exited? ==> !s.running)
    && (s.guarded ==> (!s.running <==> s.d.Cleared? || s.d.Closed?))
    && (!s.guarded ==> s.d.Open?)
  }

  ghost predicate Inv<T>(s: System<T>) {
    && Typed(s) && IndexInv(s) && StoreInv(s) && ProducerInv(s) && ConsumerInv(s)
    && UsedInv(s) && CountInv(s) && GuardInv(s) && CloseInv(s)
  }

  // ----- every step keeps it -----

  lemma PushKeepsInv<T>(s: System<T>, v: T)
    requires Inv(s)
    ensures Inv(Step(s, Push(v)))
  {
  }

  /** Filling the next slot hits no outstanding element as long as fewer are outstanding than
      there are slots. */
  lemma FillKeepsStore<T>(s: System<T>)
    requires Inv(s) && Bounded(s) && s.p.HasSlot?
    ensures StoreInv(ProducerStep(s))
  {
    var n := |s.q.store|;
    forall k | s.taken <= k < |s.written| ensures SlotOf(k, n) != s.p.slot {
      SlotShared(k, |s.written|, n);
    }
  }

  lemma PublishKeepsStore<T>(s: System<T>)
    requires Inv(s) && s.p.HasWrite?
    ensures StoreInv(ProducerStep(s)) && UsedInv(ProducerStep(s))
  {
    var s' := ProducerStep(s);
    assert s'.written[..UsedCount(s')] == s.written[..UsedCount(s)];
  }

  lemma PublishKeepsRest<T>(s: System<T>)
    requires Inv(s) && Bounded(s) && s.p.HasWrite?
    ensures var r := ProducerStep(s);
            && Typed(r) && IndexInv(r) && ProducerInv(r) && ConsumerInv(r)
            && CountInv(r) && GuardInv(r) && CloseInv(r)
  {
    hide StoreInv, UsedInv;
    SlotNext(|s.written|, |s.q.store|);
  }

  lemma PublishKeepsInv<T>(s: System<T>)
    requires Inv(s) && Bounded(s) && s.p.HasWrite?
    ensures Inv(ProducerStep(s))
  {
    hide StoreInv, UsedInv, IndexInv, ProducerInv, ConsumerInv, CountInv, GuardInv, CloseInv;
    PublishKeepsStore(s);
    PublishKeepsRest(s);
  }

  lemma RestKeepsInv<T>(s: System<T>)
    requires Inv(s) && s.p.Resting?
    ensures Inv(ProducerStep(s))
  {
  }

  lemma FillKeepsInv<T>(s: System<T>)
    requires Inv(s) && Bounded(s) && s.p.HasSlot?
    ensures Inv(ProducerStep(s))
  {
    FillKeepsStore(s);
  }

  lemma LoadWriteKeepsInv<T>(s: System<T>)
    requires Inv(s) && s.p.Filled?
    ensures Inv(ProducerStep(s))
  {
  }

  lemma CountUpKeepsInv<T>(s: System<T>)
    requires Inv(s) && s.p.Published?
    ensures Inv(ProducerStep(s))
  {
    CountUp(s.q.count, Increments(s) - Decrements(s));
  }

  lemma ProducerKeepsInv<T>(s: System<T>)
    requires Inv(s) && Bounded(s)
    ensures Inv(ProducerStep(s))
  {
    hide Inv;
    match s.p {
      case Resting => RestKeepsInv(s);
      case HasSlot(_, _) => FillKeepsInv(s);
      case Filled(_) => LoadWriteKeepsInv(s);
      case HasWrite(_, _) => PublishKeepsInv(s);
      case Published => CountUpKeepsInv(s);
    }
  }

  /** The counter as a plain number, while it is small. */
  lemma CountSmall<T>(s: System<T>)
    requires Inv(s) && Bounded(s)
    ensures -1 <= Increments(s) - Decrements(s) < WORD
    ensures s.q.count == 0 <==> Increments(s) == Decrements(s)
  {
  }

  lemma ShowKeepsInv<T>(s: System<T>)
    requires Inv(s) && Bounded(s) && s.c.HasBoth?
    ensures Inv(ConsumerStep(s))
  {
    SlotShared(s.taken, s.c.seen, |s.q.store|);
  }

  lemma UseKeepsInv<T>(s: System<T>)
    requires Inv(s) && s.c.Using?
    ensures Inv(ConsumerStep(s))
  {
    assert s.written[..s.taken + 1] == s.written[..s.taken] + [s.written[s.taken]];
  }

  lemma AdvanceKeepsInv<T>(s: System<T>)
    requires Inv(s) && s.c.HasReadAgain?
    ensures Inv(ConsumerStep(s))
  {
    SlotNext(s.taken, |s.q.store|);
  }

  /** Loading an index or the running flag changes no shared memory. */
  lemma LoadKeepsInv<T>(s: System<T>)
    requires Inv(s) && (s.c.Looking? || s.c.HasRead? || s.c.Used? || s.c.Checking? || s.c.Exited?)
    ensures Inv(ConsumerStep(s))
  {
    hide SlotOf, Following, Increment, Decrement;
  }

  lemma GuardKeepsInv<T>(s: System<T>)
    requires Inv(s) && Bounded(s) && s.c.Showing?
    ensures Inv(ConsumerStep(s))
  {
    CountSmall(s);
  }

  lemma CountDownKeepsInv<T>(s: System<T>)
    requires Inv(s) && s.c.Advanced?
    ensures Inv(ConsumerStep(s))
  {
    CountDown(s.q.count, Increments(s) - Decrements(s));
  }

  lemma ConsumerKeepsInv<T>(s: System<T>)
    requires Inv(s) && Bounded(s)
    ensures Inv(ConsumerStep(s))
  {
    hide Inv;
    match s.c {
      case HasBoth(_, _, _) => ShowKeepsInv(s);
      case Showing(_) => GuardKeepsInv(s);
      case Using(_) => UseKeepsInv(s);
      case HasReadAgain(_) => AdvanceKeepsInv(s);
      case Advanced => CountDownKeepsInv(s);
      case _ => LoadKeepsInv(s);
    }
  }

  lemma CloserKeepsInv<T>(s: System<T>)
    requires Inv(s) && Bounded(s)
    ensures Inv(CloserStep(s))
  {
    CountSmall(s);
  }

  lemma StepKeepsInv<T>(s: System<T>, m: Move<T>)
    requires Inv(s) && Bounded(s)
    ensures Inv(Step(s, m))
  {
    match m {
      case Push(v) => PushKeepsInv(s, v);
      case Produce => ProducerKeepsInv(s);
      case Consume => ConsumerKeepsInv(s);
      case Close => CloserKeepsInv(s);
    }
  }

  lemma {:induction false} RunKeepsInv<T>(s: System<T>, ms: seq<Move<T>>)
    requires Inv(s) && BoundedRun(s, ms)
    ensures Inv(Run(s, ms)) && Bounded(Run(s, ms))
    decreases |ms|
  {
    if ms != [] {
      StepKeepsInv(s, ms[0]);
      RunKeepsInv(Step(s, ms[0]), ms[1..]);
    }
  }

  lemma InitialInv<T>(s: System<T>)
    requires Initial(s)
    ensures Inv(s) && Bounded(s)
  {
  }

  // ----- what follows -----

  lemma ContentsNone<T>(q: Shared<T>)
    requires SharedOk(q) && q.read == q.write
    ensures Contents(q) == []
  {
  }

  /** The queue holds the elements whose slots its indices span. */
  lemma {:induction false} ContentsWindow<T>(q: Shared<T>, written: seq<T>, taken: nat)
    requires SharedOk(q) && taken <= |written| < taken + |q.store|
    requires q.read == SlotOf(taken, |q.store|) && q.write == SlotOf(|written|, |q.store|)
    requires forall k :: taken <= k < |written| ==> q.store[SlotOf(k, |q.store|)] == written[k]
    ensures Contents(q) == written[taken..]
    decreases |written| - taken
  {
    hide Contents, Following;
    var n := |q.store|;
    SlotShared(taken, |written|, n);
    if taken == |written| {
      ContentsNone(q);
    } else {
      SlotNext(taken, n);
      PopContents(q, q.count);
      ContentsWindow(Shared(q.store, Following(q.read, n), q.write, q.count), written, taken + 1);
      assert written[taken..] == [written[taken]] + written[taken + 1..];
    }
  }

  /** Nothing is lost, duplicated or reordered: in every interleaving what has been used is a
      prefix of what has been written, and the queue holds exactly the elements after those
      taken off. */
  lemma FifoOverAllInterleavings<T>(s: System<T>, ms: seq<Move<T>>)
    requires Initial(s) && BoundedRun(s, ms)
    ensures var r := Run(s, ms);
            && r.used <= r.written
            && r.taken <= |r.written| && Contents(r.q) == r.written[r.taken..]
            && r.taken <= |r.used| <= r.taken + 1
  {
    InitialInv(s);
    RunKeepsInv(s, ms);
    var r := Run(s, ms);
    ContentsWindow(r.q, r.written, r.taken);
  }

  /** What the counter shows in one state. */
  ghost predicate CounterIs<T>(r: System<T>) {
    var difference := Increments(r) - Decrements(r);
    && r.q.count == difference % WORD
    && -1 <= difference <= |r.q.store|
    && (r.guarded ==> 0 <= difference && r.q.count == difference)
    && (|r.q.store| + 1 < WORD ==> (r.q.count == WORD - 1 <==> difference == -1))
    && (difference == -1 <==> r.taken == |r.written| && r.p.Published? && !r.c.Advanced?)
  }

  lemma CounterOf<T>(r: System<T>)
    requires Inv(r) && Bounded(r)
    ensures CounterIs(r)
  {
    hide StoreInv, ProducerInv, UsedInv, CloseInv;
  }

  /** The counter in every reachable state: increments minus decrements modulo the word. Behind the
      size guard it never wraps; without it, it shows one below zero exactly while the last element
      has been taken off and counted down but not yet counted up. */
  lemma CounterAccounting<T>(s: System<T>, ms: seq<Move<T>>)
    requires Initial(s) && BoundedRun(s, ms)
    ensures CounterIs(Run(s, ms))
  {
    hide Inv, Bounded, Initial, Run, BoundedRun, CounterIs;
    InitialInv(s);
    RunKeepsInv(s, ms);
    CounterOf(Run(s, ms));
  }

  /** When the destructor has seen a zero counter, everything pushed has been streamed, in push
      order, and nothing is left in the queue; so also when it clears the flag and returns. */
  lemma ShutdownDrains<T>(s: System<T>, ms: seq<Move<T>>)
    requires Initial(s) && BoundedRun(s, ms)
    ensures var r := Run(s, ms);
            && (r.d.SawZero? || r.d.Cleared? || r.d.Closed? ==> r.used == r.written && Contents(r.q) == [])
            && (r.guarded && !r.running ==> r.used == r.written)
            && (r.d.Closed? ==> r.c.Exited?)
  {
    InitialInv(s);
    RunKeepsInv(s, ms);
    var r := Run(s, ms);
    ContentsWindow(r.q, r.written, r.taken);
    assert r.used == r.written[..UsedCount(r)];
    assert r.written[..|r.written|] == r.written;
  }

  /** Equal indices mean nothing outstanding, or a whole ring. */
  lemma LooksEmpty<T>(s: System<T>, m: Move<T>)
    requires Inv(s) && Bounded(s)
    ensures var r := Step(s, m);
            && Outstanding(r) <= |r.q.store|
            && (r.q.read == r.q.write <==> Outstanding(r) == 0 || !Bounded(r))
  {
    StepKeepsInv(s, m);
    var r := Step(s, m);
    SlotShared(r.taken, |r.written|, |r.q.store|);
  }

  /** The bound is exact: after any move from a state within it, the queue shows the elements
      published and not taken off if and only if the new state is within it too. The publication
      that passes it makes a whole ring of elements invisible. */
  lemma BoundIsExact<T>(s: System<T>, m: Move<T>)
    requires Inv(s) && Bounded(s)
    ensures var r := Step(s, m);
            && r.taken <= |r.written|
            && (Contents(r.q) == r.written[r.taken..] <==> Bounded(r))
            && (!Bounded(r) ==> Contents(r.q) == [] && |r.written[r.taken..]| == |r.q.store|)
  {
    StepKeepsInv(s, m);
    LooksEmpty(s, m);
    var r := Step(s, m);
    if Bounded(r) {
      ContentsWindow(r.q, r.written, r.taken);
    } else {
      ContentsNone(r.q);
    }
  }

  /** In every state of the run the queue shows the elements published and not taken off. */
  ghost predicate ShowsAll<T>(s: System<T>, ms: seq<Move<T>>)
    requires Typed(s)
    decreases |ms|
  {
    && s.taken <= |s.written| && Contents(s.q) == s.written[s.taken..]
    && (ms != [] ==> ShowsAll(Step(s, ms[0]), ms[1..]))
  }

  /** Over whole runs too: the queue shows in every state what it should if and only if the run
      stays within the bound. */
  lemma {:induction false} BoundIsExactOverRuns<T>(s: System<T>, ms: seq<Move<T>>)
    requires Inv(s) && Bounded(s)
    ensures BoundedRun(s, ms) <==> ShowsAll(s, ms)
    decreases |ms|
  {
    hide Bounded, Contents, Step, StoreInv, ProducerInv, ConsumerInv, UsedInv, CountInv, CloseInv;
    ShowsWithin(s);
    if ms != [] {
      BoundIsExact(s, ms[0]);
      StepKeepsInv(s, ms[0]);
      if Bounded(Step(s, ms[0])) {
        BoundIsExactOverRuns(Step(s, ms[0]), ms[1..]);
      }
    }
  }

  lemma ShowsWithin<T>(s: System<T>)
    requires Inv(s) && Bounded(s)
    ensures s.taken <= |s.written| && Contents(s.q) == s.written[s.taken..]
  {
    ContentsWindow(s.q, s.written, s.taken);
  }

  /** With a whole ring outstanding, the slot about to be filled holds the oldest element not taken
      off, and filling it with anything else destroys that element. */
  lemma PastTheBound<T>(s: System<T>)
    requires Inv(s) && !Bounded(s) && s.p.HasSlot?
    ensures s.taken < |s.written| && s.q.store[s.q.read] == s.written[s.taken]
    ensures s.p.slot == s.q.read && ProducerStep(s).q.store[s.q.read] == s.p.v
    ensures s.p.v != s.written[s.taken] ==> !StoreInv(ProducerStep(s))
  {
    SlotShared(s.taken, |s.written|, |s.q.store|);
    assert SlotOf(s.taken, |s.q.store|) == s.q.read;
  }

  /** The producer never fills the slot of the element that the consumer is using, which it keeps
      until it has moved the read index. */
  lemma SlotsApart<T>(s: System<T>)
    requires Inv(s) && Bounded(s) && s.p.HasSlot?
    ensures s.c.Using? ==> s.p.slot != s.c.slot
    ensures s.c.Used? || s.c.HasReadAgain? ==> s.p.slot != s.q.read
  {
    SlotShared(s.taken, |s.written|, |s.q.store|);
  }

  lemma {:induction false} RunConcat<T>(s: System<T>, a: seq<Move<T>>, b: seq<Move<T>>)
    requires Typed(s)
    ensures Run(s, a + b) == Run(Run(s, a), b)
    ensures BoundedRun(s, a + b) <==> BoundedRun(s, a) && BoundedRun(Run(s, a), b)
    decreases |a|
  {
    if a == [] {
      assert a + b == b;
    } else {
      assert (a + b)[1..] == a[1..] + b;
      RunConcat(Step(s, a[0]), a[1..], b);
    }
  }

  lemma RunOne<T>(s: System<T>, m: Move<T>)
    requires Typed(s)
    ensures Run(s, [m]) == Step(s, m)
    ensures BoundedRun(s, [m]) <==> Bounded(s) && Bounded(Step(s, m))
  {
    assert [m][1..] == [];
  }

  /** Four moves at once. */
  lemma RunFour<T>(s: System<T>, a: Move<T>, b: Move<T>, c: Move<T>, d: Move<T>)
    requires Typed(s)
    ensures Run(s, [a, b, c, d]) == Step(Step(Step(Step(s, a), b), c), d)
    ensures BoundedRun(s, [a, b, c, d]) <==>
              && Bounded(s) && Bounded(Step(s, a)) && Bounded(Step(Step(s, a), b))
              && Bounded(Step(Step(Step(s, a), b), c)) && Bounded(Step(Step(Step(Step(s, a), b), c), d))
  {
    hide Step, Typed, Bounded, Run, BoundedRun;
    var s1 := Step(s, a);
    var s2 := Step(s1, b);
    var s3 := Step(s2, c);
    assert [a, b, c, d] == [a] + ([b] + ([c] + [d]));
    RunConcat(s, [a], [b] + ([c] + [d]));
    RunConcat(s1, [b], [c] + [d]);
    RunConcat(s2, [c], [d]);
    RunOne(s, a);
    RunOne(s1, b);
    RunOne(s2, c);
    RunOne(s3, d);
  }

  /** Scheduled without interruption, the five moves of a push do to the shared memory what the
      queue's own operations do, and so do the last four of a consumer. */
  lemma UninterruptedPush<T>(s: System<T>, v: T)
    requires Typed(s) && s.p.Resting? && s.d.Open?
    ensures var r := Step(Step(Step(Step(Step(s, Push(v)), Produce), Produce), Produce), Produce);
            r.q == PushedAlone(s.q, v) && r.p.Resting? && r.c == s.c && r.written == s.written + [v]
  {
  }

  lemma UninterruptedUse<T>(s: System<T>)
    requires Typed(s) && s.c.Using?
    ensures var r := Step(Step(Step(Step(s, Consume), Consume), Consume), Consume);
            r.q == PoppedAlone(s.q) && r.p == s.p && r.used == s.used + [s.q.store[s.c.slot]]
  {
  }

  const EXAMPLE: System<int> :=
    System(Shared([0, 0], 0, 0, 0), Resting, Looking, Open, true, false, [], [], 0)

  const PUBLISHED: System<int> := EXAMPLE.(q := Shared([7, 0], 0, 1, 0), p := Published, written := [7])

  lemma ExamplePublishes()
    ensures var ms := [Push(7), Produce, Produce, Produce];
            BoundedRun(EXAMPLE, ms) && Run(EXAMPLE, ms) == PUBLISHED
  {
    hide Run, BoundedRun;
    RunFour(EXAMPLE, Push(7), Produce, Produce, Produce);
  }

  lemma ExampleFinds()
    ensures var ms: seq<Move<int>> := [Consume, Consume, Consume, Consume];
            Typed(PUBLISHED) && BoundedRun(PUBLISHED, ms) && Run(PUBLISHED, ms) == PUBLISHED.(c := Using(0))
  {
    hide Run, BoundedRun;
    RunFour(PUBLISHED, Consume, Consume, Consume, Consume);
  }

  lemma ExampleCountsDown()
    ensures var ms: seq<Move<int>> := [Consume, Consume, Consume, Consume];
            var s := PUBLISHED.(c := Using(0));
            && Typed(s) && BoundedRun(s, ms)
            && Run(s, ms) == PUBLISHED.(q := Shared([7, 0], 1, 1, WORD - 1), c := Checking, used := [7], taken := 1)
  {
    hide Run, BoundedRun;
    RunFour(PUBLISHED.(c := Using(0)), Consume, Consume, Consume, Consume);
  }

  /** An interleaving in which the unguarded consumer takes the counter below zero: it uses and
      counts down an element that the producer has published but not counted. */
  lemma UnguardedUnderflow()
    ensures var push := [Push(7), Produce, Produce, Produce];
            var four := [Consume, Consume, Consume, Consume];
            && Initial(EXAMPLE) && BoundedRun(EXAMPLE, push + four + four)
            && Run(EXAMPLE, push + four + four).q.count == WORD - 1
            && Run(EXAMPLE, push + four + four).used == [7]
  {
    hide Run, BoundedRun;
    var push: seq<Move<int>> := [Push(7), Produce, Produce, Produce];
    var four: seq<Move<int>> := [Consume, Consume, Consume, Consume];
    ExamplePublishes();
    ExampleFinds();
    ExampleCountsDown();
    RunConcat(EXAMPLE, push, four);
    RunConcat(EXAMPLE, push + four, four);
  }

  const TWO_FILLED: System<int> :=
    EXAMPLE.(q := Shared([7, 8], 0, 1, 1), p := HasWrite(8, 1), written := [7])

  lemma ExampleFills()
    ensures var ms: seq<Move<int>> := [Produce, Push(8), Produce, Produce];
            Typed(PUBLISHED) && BoundedRun(PUBLISHED, ms) && Run(PUBLISHED, ms) == TWO_FILLED
  {
    hide Run, BoundedRun;
    RunFour(PUBLISHED, Produce, Push(8), Produce, Produce);
  }

  /** Two pushes fill a ring of two, and the queue that holds 7 and 8 answers that it is empty; the
      run stays within the bound up to its last move. */
  lemma FullRingLooksEmpty()
    ensures var ms := [Push(7), Produce, Produce, Produce] + [Produce, Push(8), Produce, Produce];
            var r := Step(Run(EXAMPLE, ms), Produce);
            && Initial(EXAMPLE) && BoundedRun(EXAMPLE, ms)
            && r.written == [7, 8] && r.q.store == [7, 8] && r.taken == 0 && Outstanding(r) == 2
            && r.q.read == r.q.write && Contents(r.q) == []
  {
    hide Run, BoundedRun;
    ExamplePublishes();
    ExampleFills();
    RunConcat(EXAMPLE, [Push(7), Produce, Produce, Produce], [Produce, Push(8), Produce, Produce]);
    FollowingIs(1, 2);
  }

  const NINE_FILLED: System<int> :=
    EXAMPLE.(q := Shared([9, 8], 0, 0, 2), p := Filled(9), written := [7, 8])

  const NINE_FOUND: System<int> :=
    EXAMPLE.(q := Shared([9, 8], 0, 1, 2), p := Published, c := HasBoth(0, 1, 3), written := [7, 8, 9])

  lemma ExampleOverwrites()
    ensures var ms: seq<Move<int>> := [Produce, Produce, Push(9), Produce];
            Typed(TWO_FILLED) && Run(TWO_FILLED, ms) == NINE_FILLED
  {
    hide Run, BoundedRun;
    FollowingIs(1, 2);
    RunFour(TWO_FILLED, Produce, Produce, Push(9), Produce);
  }

  lemma ExampleFindsNine()
    ensures var ms: seq<Move<int>> := [Produce, Produce, Consume, Consume];
            Typed(NINE_FILLED) && Run(NINE_FILLED, ms) == NINE_FOUND
  {
    hide Run, BoundedRun;
    FollowingIs(0, 2);
    RunFour(NINE_FILLED, Produce, Produce, Consume, Consume);
  }

  lemma ExampleUsesNine()
    ensures var ms: seq<Move<int>> := [Consume, Consume, Consume, Consume];
            && Typed(NINE_FOUND)
            && Run(NINE_FOUND, ms) == NINE_FOUND.(c := HasReadAgain(0), used := [9])
  {
    hide Run, BoundedRun;
    RunFour(NINE_FOUND, Consume, Consume, Consume, Consume);
  }

  /** A third push into the full ring of two breaks first-in first-out: 7, 8 and 9 are written, and
      the first element used is 9. */
  lemma FifoBreaksPastTheBound()
    ensures var ms := [Push(7), Produce, Produce, Produce] + [Produce, Push(8), Produce, Produce]
                      + [Produce, Produce, Push(9), Produce] + [Produce, Produce, Consume, Consume]
                      + [Consume, Consume, Consume, Consume];
            var r := Run(EXAMPLE, ms);
            && Initial(EXAMPLE) && !BoundedRun(EXAMPLE, ms)
            && r.written == [7, 8, 9] && r.used == [9] && !(r.used <= r.written)
  {
    hide Run, BoundedRun, Step;
    var a: seq<Move<int>> := [Push(7), Produce, Produce, Produce];
    var b: seq<Move<int>> := [Produce, Push(8), Produce, Produce];
    var c: seq<Move<int>> := [Produce, Produce, Push(9), Produce];
    var d: seq<Move<int>> := [Produce, Produce, Consume, Consume];
    var e: seq<Move<int>> := [Consume, Consume, Consume, Consume];
    ExamplePublishes();
    ExampleFills();
    ExampleOverwrites();
    ExampleFindsNine();
    ExampleUsesNine();
    RunConcat(EXAMPLE, a, b);
    RunConcat(EXAMPLE, a + b, c);
    RunConcat(EXAMPLE, a + b + c, d);
    RunConcat(EXAMPLE, a + b + c + d, e);
    if BoundedRun(EXAMPLE, a + b + c + d + e) {
      FifoOverAllInterleavings(EXAMPLE, a + b + c + d + e);
    }
    assert [9][0] != [7, 8, 9][0];
  }
}
