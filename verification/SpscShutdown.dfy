/** The logger's shutdown ends: once the destructor waits, every schedule that lets the consumer
    and the destructor move often enough drains the queue and returns. */
module SpscShutdown {
  import opened LFQueues
  import opened SpscMachine

  function Consumes<T>(ms: seq<Move<T>>): nat {
    if ms == [] then 0 else (if ms[0].Consume? then 1 else 0) + Consumes(ms[1..])
  }

  function Closes<T>(ms: seq<Move<T>>): nat {
    if ms == [] then 0 else (if ms[0].Close? then 1 else 0) + Closes(ms[1..])
  }

  /** The logger's destructor has started. */
  ghost predicate Closing<T>(s: System<T>) {
    Typed(s) && Inv(s) && Bounded(s) && s.guarded && !s.d.Open?
  }

  /** Everything published is taken off and counted down. */
  predicate Drained<T>(s: System<T>) {
    s.taken == |s.written| && !s.c.Advanced?
  }

  /** From here on nothing is written, nothing is started, and the destructor does not go back. */
  lemma StepWhileClosing<T>(s: System<T>, m: Move<T>)
    requires Closing(s)
    ensures var r := Step(s, m);
            && Closing(r) && r.written == s.written
            && (Drained(s) ==> Drained(r))
            && (!s.running ==> !r.running)
            && (s.d.Closed? ==> r.d.Closed?)
            && (s.c.Exited? ==> r.c.Exited?)
  {
    StepKeepsInv(s, m);
    hide StoreInv, CountInv, GuardInv, IndexInv;
  }

  /** How many of its own steps the consumer needs until the queue is drained: eight for an
      element, three more if it has just missed one. */
  function ToDrain<T>(s: System<T>): int {
    var n := 8 * Outstanding(s);
    if Drained(s) then 0
    else match s.c
      case Looking => n
      case HasRead(_) => n - 1
      case HasBoth(_, _, seen) => if seen > s.taken then n - 2 else n + 3
      case Showing(answer) => if answer >= 0 then n - 3 else n + 2
      case Using(_) => n - 4
      case Used => n - 5
      case HasReadAgain(_) => n - 6
      case Advanced => n + 1
      case Checking => n + 1
      case Exited => 0
  }

  lemma ToDrainIsSmall<T>(s: System<T>)
    requires Closing(s)
    ensures 0 <= ToDrain(s) <= 8 * Outstanding(s) + 3
    ensures ToDrain(s) == 0 ==> Drained(s)
  {
  }

  /** While something is left, the counter is not zero, and the running flag is set. */
  lemma NotDrained<T>(s: System<T>)
    requires Closing(s) && !Drained(s)
    ensures s.running && s.d.Waiting? && !s.c.Exited?
    ensures s.taken < |s.written| ==> s.q.count != 0
  {
    CountSmall(s);
  }

  lemma ConsumeDrains<T>(s: System<T>)
    requires Closing(s) && !Drained(s)
    ensures ToDrain(ConsumerStep(s)) < ToDrain(s)
  {
    hide StoreInv, UsedInv, CountInv, GuardInv, ProducerInv, CloseInv;
    NotDrained(s);
    if s.c.HasBoth? {
      SlotShared(s.taken, s.c.seen, |s.q.store|);
    }
  }

  lemma DrainStep<T>(s: System<T>, m: Move<T>)
    requires Closing(s)
    ensures ToDrain(Step(s, m)) <= ToDrain(s)
    ensures m.Consume? && !Drained(s) ==> ToDrain(Step(s, m)) < ToDrain(s)
  {
    hide StoreInv, UsedInv, CountInv, GuardInv, IndexInv, ConsumerInv, ConsumerStep;
    if Drained(s) {
      StepWhileClosing(s, m);
    } else if m.Consume? {
      ConsumeDrains(s);
    }
  }

  /** Enough moves of the consumer drain the queue, whatever moves come in between. */
  lemma {:induction false} RunDrains<T>(s: System<T>, ms: seq<Move<T>>)
    requires Closing(s) && (Drained(s) || Consumes(ms) >= ToDrain(s))
    ensures Closing(Run(s, ms)) && Drained(Run(s, ms)) && Run(s, ms).written == s.written
    decreases |ms|
  {
    hide Inv, Typed, Bounded, Drained, ToDrain, Step;
    ToDrainIsSmall(s);
    if ms != [] {
      StepWhileClosing(s, ms[0]);
      DrainStep(s, ms[0]);
      RunDrains(Step(s, ms[0]), ms[1..]);
    }
  }

  // ----- the flag, the return, the join -----

  /** Moves of the destructor until it has cleared the running flag. */
  function ToClear<T>(s: System<T>): nat {
    if s.d.Open? || s.d.Waiting? then 2 else if s.d.SawZero? then 1 else 0
  }

  lemma ClearStep<T>(s: System<T>, m: Move<T>)
    requires Closing(s) && Drained(s)
    ensures ToClear(Step(s, m)) <= ToClear(s)
    ensures m.Close? && ToClear(s) > 0 ==> ToClear(Step(s, m)) < ToClear(s)
    ensures ToClear(s) == 0 <==> !s.running
  {
    hide StoreInv, UsedInv, GuardInv, ConsumerInv;
    CountSmall(s);
  }

  lemma {:induction false} RunClears<T>(s: System<T>, ms: seq<Move<T>>)
    requires Closing(s) && Drained(s) && Closes(ms) >= ToClear(s)
    ensures var r := Run(s, ms); Closing(r) && Drained(r) && !r.running && r.written == s.written
    decreases |ms|
  {
    hide Inv, Typed, Bounded, Drained, ToClear, Step;
    ClearStep(s, if ms == [] then Close else ms[0]);
    if ms != [] {
      StepWhileClosing(s, ms[0]);
      RunClears(Step(s, ms[0]), ms[1..]);
    }
  }

  /** Steps of the consumer of a drained queue until it tests the cleared flag. */
  function ToExit<T>(s: System<T>): nat {
    match s.c
    case Looking => 5
    case HasRead(_) => 4
    case HasBoth(_, _, _) => 3
    case Showing(_) => 2
    case Checking => 1
    case _ => 0
  }

  lemma ExitStep<T>(s: System<T>, m: Move<T>)
    requires Closing(s) && Drained(s) && !s.running
    ensures ToExit(Step(s, m)) <= ToExit(s)
    ensures m.Consume? && ToExit(s) > 0 ==> ToExit(Step(s, m)) < ToExit(s)
    ensures ToExit(s) == 0 <==> s.c.Exited?
  {
    hide StoreInv, UsedInv, GuardInv, CountInv, ProducerInv;
    if s.c.HasBoth? {
      SlotShared(s.taken, s.c.seen, |s.q.store|);
    }
  }

  lemma {:induction false} RunExits<T>(s: System<T>, ms: seq<Move<T>>)
    requires Closing(s) && Drained(s) && !s.running && Consumes(ms) >= ToExit(s)
    ensures var r := Run(s, ms);
            Closing(r) && Drained(r) && !r.running && r.c.Exited? && r.written == s.written
    decreases |ms|
  {
    hide Inv, Typed, Bounded, Drained, ToExit, Step;
    ExitStep(s, if ms == [] then Consume else ms[0]);
    if ms != [] {
      StepWhileClosing(s, ms[0]);
      RunExits(Step(s, ms[0]), ms[1..]);
    }
  }

  lemma {:induction false} RunJoins<T>(s: System<T>, ms: seq<Move<T>>)
    requires Closing(s) && Drained(s) && !s.running && s.c.Exited? && (s.d.Closed? || Closes(ms) >= 1)
    ensures var r := Run(s, ms); Closing(r) && Drained(r) && r.d.Closed? && r.written == s.written
    decreases |ms|
  {
    hide Inv, Typed, Bounded, Drained, Step;
    if ms != [] {
      StepWhileClosing(s, ms[0]);
      if ms[0].Close? {
        JoinStep(s, ms[0]);
      }
      RunJoins(Step(s, ms[0]), ms[1..]);
    }
  }

  lemma JoinStep<T>(s: System<T>, m: Move<T>)
    requires Closing(s) && !s.running && s.c.Exited? && m.Close?
    ensures Step(s, m).d.Closed?
  {
  }

  /** Once the destructor waits, every schedule that gives the consumer eight moves for each
      outstanding element and three more, then the destructor two, then the consumer five, then
      the destructor one, in between any others, ends with the destructor returned, the flush
      thread joined and everything that was pushed streamed in push order. */
  lemma ShutdownCompletes<T>(s: System<T>, a: seq<Move<T>>, b: seq<Move<T>>, c: seq<Move<T>>, d: seq<Move<T>>)
    requires Closing(s)
    requires Consumes(a) >= 8 * Outstanding(s) + 3 && Closes(b) >= 2 && Consumes(c) >= 5 && Closes(d) >= 1
    ensures var r := Run(s, a + b + c + d);
            && r.d.Closed? && r.c.Exited?
            && r.written == s.written && r.used == s.written && Contents(r.q) == []
  {
    hide Run, BoundedRun, Typed, Inv, Bounded, Drained, ToDrain, Consumes, Closes, Contents;
    ToDrainIsSmall(s);
    RunDrains(s, a);
    var s1 := Run(s, a);
    RunClears(s1, b);
    var s2 := Run(s1, b);
    RunExits(s2, c);
    var s3 := Run(s2, c);
    RunJoins(s3, d);
    RunConcat(s, a, b);
    RunConcat(s, a + b, c);
    RunConcat(s, a + b + c, d);
    ClosedIsDone(Run(s3, d));
  }

  lemma ClosedIsDone<T>(r: System<T>)
    requires Closing(r) && Drained(r) && r.d.Closed?
    ensures r.c.Exited? && r.used == r.written && Contents(r.q) == []
  {
    hide StoreInv, ConsumerInv, ProducerInv, CountInv, GuardInv, SlotOf;
    assert r.written[..|r.written|] == r.written;
    ContentsNone(r.q);
  }
}
