/**
 Sleeping and waking in the driver (pdma-v1.1-src/pdma-dev.c): the step machine with, beside it, which waiting threads
 the scheduler has put to sleep and which wake_ups are due. A thread sleeps only if the list it waits for is empty
 when it looks; an interrupt wakes a queue after it dropped the lock; putting a block back after a failed copy wakes
 nobody. Exactly which moves leave a sleeper with a block it could take and no wake_up due.
 */
module PdmaSleep {
  import opened PdmaLists
  import opened PdmaProtocol
  import opened PdmaConservation
  import opened PdmaInvariants
  import opened PdmaOrder
  import opened PdmaTheorems

  datatype Night = Night(
    base: State,
    asleep: set<nat>,
    rdWake: bool, wtWake: bool,     // an interrupt is about to wake the queue
    rdStranded: bool, wtStranded: bool)   // a block put back stranded a sleeper since the last start

  datatype Move =
    | Go(step: Step)
    | Doze(t: nat)
    | WakeReaders
    | WakeWriters
    | WakeAll                       // pdma_dma_stop, while it polls
    | Signal(t: nat)

  /** The blocks a waiting thread could take. */
  function Available(s: State, op: Op): seq<Block>
  {
    if op == Read then s.rd.pending else s.wt.free
  }

  predicate Can(n: Night, m: Move)
  {
    match m
    case Go(step) => Legal(n.base, step) && (step.Wake? ==> step.t !in n.asleep)
    case Doze(t) =>
      && t < |n.base.threads| && n.base.threads[t].Waiting? && t !in n.asleep
      && Available(n.base, n.base.threads[t].op) == []
    case WakeReaders => n.rdWake
    case WakeWriters => n.wtWake
    case WakeAll => n.base.control.Polling?
    case Signal(t) => t in n.asleep
  }

  /** The step puts a block back after a failed copy in the direction. */
  predicate PutsBack(s: State, step: Step, op: Op)
    requires Enabled(s, step)
  {
    step.Finish? && if op == Read then s.threads[step.t].RdFailed? else s.threads[step.t].WtFailed?
  }

  /** The step is an interrupt that completes something in the direction. */
  predicate Completes(s: State, step: Step, op: Op)
  {
    step.Interrupt? && s.enable && if op == Read then step.rdData != [] else step.wtCnt > 0
  }

  function SleepersOf(n: Night, op: Op): set<nat>
  {
    set t | t in n.asleep && t < |n.base.threads| && n.base.threads[t] == Waiting(op)
  }

  predicate WakeDue(n: Night, op: Op)
  {
    if op == Read then n.rdWake else n.wtWake
  }

  /** A block goes back to an empty list past a sleeper, with no wake_up due. */
  predicate Strands(n: Night, step: Step, op: Op)
    requires Enabled(n.base, step)
  {
    PutsBack(n.base, step, op) && Available(n.base, op) == [] && SleepersOf(n, op) != {} && !WakeDue(n, op)
  }

  function Pass(n: Night, step: Step): Night
    requires Enabled(n.base, step)
  {
    Night(Apply(n.base, step), n.asleep,
          n.rdWake || Completes(n.base, step, Read), n.wtWake || Completes(n.base, step, Write),
          if step == InitLists then false else n.rdStranded || Strands(n, step, Read),
          if step == InitLists then false else n.wtStranded || Strands(n, step, Write))
  }

  function Do(n: Night, m: Move): Night
    requires Can(n, m)
  {
    match m
    case Go(step) => Pass(n, step)
    case Doze(t) => n.(asleep := n.asleep + {t})
    case WakeReaders => n.(rdWake := false, asleep := n.asleep - SleepersOf(n, Read))
    case WakeWriters => n.(wtWake := false, asleep := n.asleep - SleepersOf(n, Write))
    case WakeAll => n.(asleep := {})
    case Signal(t) => n.(asleep := n.asleep - {t})
  }

  // ----- what each move keeps -----

  ghost predicate SleepersWait(n: Night)
  {
    forall t | t in n.asleep :: t < |n.base.threads| && n.base.threads[t].Waiting?
  }

  /** A sleeper with a block to take has a wake_up coming. */
  predicate Provided(n: Night, op: Op)
  {
    SleepersOf(n, op) != {} && Available(n.base, op) != [] ==> WakeDue(n, op)
  }

  predicate StrandedSinceStart(n: Night, op: Op)
  {
    if op == Read then n.rdStranded else n.wtStranded
  }

  predicate NoneForgotten(n: Night, op: Op)
  {
    StrandedSinceStart(n, op) || Provided(n, op)
  }

  ghost predicate Restful(n: Night)
  {
    SleepersWait(n) && NoneForgotten(n, Read) && NoneForgotten(n, Write)
  }

  lemma TakeShrinks(s: State, t: nat, op: Op, nonblock: bool, side: Op)
    requires t < |s.threads| && Available(s, side) == []
    ensures Available(TakeOrWait(s, t, op, nonblock), side) == []
  {
  }

  lemma FinishGrows(s: State, t: nat, op: Op)
    requires Enabled(s, Finish(t)) && Available(s, op) == [] && Available(FinishBlock(s, t), op) != []
    ensures PutsBack(s, Finish(t), op)
  {
  }

  lemma InterruptGrows(s: State, rdData: seq<Payload>, wtCnt: nat, op: Op)
    requires |rdData| <= |s.rd.submit| && wtCnt <= |s.wt.submit|
    requires Available(s, op) == [] && Available(Interrupted(s, rdData, wtCnt), op) != []
    ensures if op == Read then rdData != [] else wtCnt > 0
  {
    var m := RdInterruptMoves(s.rd, |rdData|);
    var k := WtInterruptMoves(s.wt, wtCnt);
  }

  lemma RefillGrowsNothing(s: State, op: Op)
    requires Available(s, op) == []
    ensures Available(Refilled(s), op) == []
  {
    RdRefillMoves(s.rd);
  }

  /** What makes a block available where there was none. */
  lemma BecomesAvailable(s: State, step: Step, op: Op)
    requires Enabled(s, step) && Available(s, op) == [] && Available(Apply(s, step), op) != []
    ensures Completes(s, step, op) || PutsBack(s, step, op) || step == InitLists
  {
    match step
    case Try(t, nonblock) => TakeShrinks(s, t, s.threads[t].op, nonblock, op);
    case Wake(t, signalled) => TakeShrinks(s, t, s.threads[t].op, false, op);
    case Finish(t) => FinishGrows(s, t, op);
    case Refill(_) => RefillGrowsNothing(s, op);
    case StartRefill => RefillGrowsNothing(s, op);
    case Interrupt(rdData, wtCnt) =>
      if s.enable {
        InterruptGrows(s, rdData, wtCnt, op);
      }
    case _ =>
  }

  /** A step moves no sleeper. */
  lemma SleepersStay(n: Night, step: Step)
    requires SleepersWait(n) && Can(n, Go(step))
    ensures SleepersWait(Pass(n, step))
    ensures forall t | t in n.asleep :: Apply(n.base, step).threads[t] == n.base.threads[t]
  {
    StepMovesOne(n.base, step);
    forall t | t in n.asleep
      ensures Mover(step) != t
    {
    }
  }

  lemma SameSleepers(n: Night, step: Step, op: Op)
    requires SleepersWait(n) && Can(n, Go(step))
    ensures SleepersOf(Pass(n, step), op) == SleepersOf(n, op)
  {
    SleepersStay(n, step);
    StepMovesOne(n.base, step);
  }

  lemma QuietNobodyWaits(n: Night, op: Op)
    requires Inv(n.base) && n.base.quiet
    ensures SleepersOf(n, op) == {}
  {
    assert forall t | 0 <= t < |n.base.threads| :: Passive(n.base.threads[t]);
  }

  lemma GoStrandsIff(n: Night, step: Step, op: Op)
    requires Inv(n.base) && SleepersWait(n) && Provided(n, op) && Can(n, Go(step))
    ensures Provided(Pass(n, step), op) <==> !Strands(n, step, op)
  {
    SameSleepers(n, step, op);
    if step == InitLists {
      QuietNobodyWaits(n, op);
    } else if Available(n.base, op) == [] && Available(Apply(n.base, step), op) != [] {
      BecomesAvailable(n.base, step, op);
    }
  }

  lemma WakeReadersProvides(n: Night, op: Op)
    requires Provided(n, op) && n.rdWake
    ensures Provided(Do(n, WakeReaders), op)
  {
    assert SleepersOf(Do(n, WakeReaders), Read) == {};
    assert SleepersOf(Do(n, WakeReaders), Write) == SleepersOf(n, Write);
  }

  lemma WakeWritersProvides(n: Night, op: Op)
    requires Provided(n, op) && n.wtWake
    ensures Provided(Do(n, WakeWriters), op)
  {
    assert SleepersOf(Do(n, WakeWriters), Write) == {};
    assert SleepersOf(Do(n, WakeWriters), Read) == SleepersOf(n, Read);
  }

  lemma DozeProvides(n: Night, t: nat, op: Op)
    requires Provided(n, op) && Can(n, Doze(t))
    ensures Provided(Do(n, Doze(t)), op)
  {
    if n.base.threads[t].op != op {
      assert SleepersOf(Do(n, Doze(t)), op) == SleepersOf(n, op);
    }
  }

  /**
   Exactly one kind of move leaves a sleeper with a block it could take and no wake_up due: a failed copy that puts its
   block back to an empty list while somebody sleeps on it and no wake_up is due.
   */
  lemma MoveStrandsIff(n: Night, m: Move, op: Op)
    requires Inv(n.base) && SleepersWait(n) && Provided(n, op) && Can(n, m)
    ensures Provided(Do(n, m), op) <==> !(m.Go? && Strands(n, m.step, op))
  {
    match m
    case Go(step) => GoStrandsIff(n, step, op);
    case Doze(t) => DozeProvides(n, t, op);
    case WakeReaders => WakeReadersProvides(n, op);
    case WakeWriters => WakeWritersProvides(n, op);
    case WakeAll => assert SleepersOf(Do(n, m), op) == {};
    case Signal(t) => assert SleepersOf(Do(n, m), op) <= SleepersOf(n, op);
  }

  lemma MoveKeepsRestful(n: Night, m: Move)
    requires Inv(n.base) && Restful(n) && Can(n, m)
    ensures Restful(Do(n, m))
  {
    if m.Go? {
      SleepersStay(n, m.step);
    }
    forall op
      ensures NoneForgotten(Do(n, m), op)
    {
      if Provided(n, op) {
        MoveStrandsIff(n, m, op);
      } else if m == Go(InitLists) {
        QuietNobodyWaits(n, op);
      }
    }
  }

  // ----- over whole runs -----

  ghost predicate Arises(n0: Night, moves: seq<Move>, n: Night)
    decreases |moves|
  {
    if moves == [] then n == n0
    else Can(n0, moves[0]) && Arises(Do(n0, moves[0]), moves[1..], n)
  }

  /** The driver just initialised, everybody outside. */
  function Evening(rdMem: seq<Payload>, wtMem: seq<Payload>, threads: nat): Night
  {
    Night(Initial(rdMem, wtMem, threads), {}, false, false, false, false)
  }

  lemma MoveStaysReachable(n: Night, m: Move)
    requires Reachable(n.base) && Can(n, m)
    ensures Reachable(Do(n, m).base)
  {
    if m.Go? {
      ReachableStep(n.base, m.step);
    }
  }

  lemma {:induction false} ArisesRestful(n0: Night, moves: seq<Move>, n: Night)
    requires Reachable(n0.base) && Restful(n0) && Arises(n0, moves, n)
    ensures Reachable(n.base) && Restful(n)
    decreases |moves|
  {
    if moves != [] {
      ReachableInv(n0.base);
      MoveStaysReachable(n0, moves[0]);
      MoveKeepsRestful(n0, moves[0]);
      ArisesRestful(Do(n0, moves[0]), moves[1..], n);
    }
  }

  ghost predicate Possible(n: Night)
  {
    exists rdMem, wtMem, threads, moves :: Arises(Evening(rdMem, wtMem, threads), moves, n)
  }

  lemma PossibleRestful(n: Night)
    requires Possible(n)
    ensures Reachable(n.base) && Restful(n)
  {
    var rdMem, wtMem, threads, moves :| Arises(Evening(rdMem, wtMem, threads), moves, n);
    ReachableInitial(rdMem, wtMem, threads);
    ArisesRestful(Evening(rdMem, wtMem, threads), moves, n);
  }

  /** Unless a block put back stranded a sleeper, a thread asleep with a block it could take has a wake_up coming. */
  lemma WokenUnlessStranded(n: Night, op: Op)
    requires Possible(n) && SleepersOf(n, op) != {} && Available(n.base, op) != []
    ensures WakeDue(n, op) || StrandedSinceStart(n, op)
  {
    PossibleRestful(n);
  }

  lemma {:induction false} ArisesThen(n0: Night, moves: seq<Move>, n: Night, m: Move)
    requires Arises(n0, moves, n) && Can(n, m)
    ensures Arises(n0, moves + [m], Do(n, m))
    decreases |moves|
  {
    if moves == [] {
      assert [m][1..] == [] && [] + [m] == [m];
    } else {
      ArisesThen(Do(n0, moves[0]), moves[1..], n, m);
      assert (moves + [m])[1..] == moves[1..] + [m];
    }
  }

  lemma PossibleThen(n: Night, m: Move)
    requires Possible(n) && Can(n, m)
    ensures Possible(Do(n, m))
  {
    var rdMem, wtMem, threads, moves :| Arises(Evening(rdMem, wtMem, threads), moves, n);
    ArisesThen(Evening(rdMem, wtMem, threads), moves, n, m);
  }
}
