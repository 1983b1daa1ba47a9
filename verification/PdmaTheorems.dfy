/**
 The driver's promises over whole runs: every interleaving of threads, interrupts and control ioctls
 from initialisation on.
 */
module PdmaTheorems {
  import opened PdmaLists
  import opened PdmaProtocol
  import opened PdmaConservation
  import opened PdmaInvariants
  import opened PdmaOrder

  ghost predicate Inv(s: State)
  {
    && Partition(s) && Counted(s) && RwCounted(s) && Quiesced(s) && OrphansStopped(s) && RefillOwed(s)
    && WriteOrder(s) && ReadsConserved(s)
  }

  lemma QuietHoldsNothing(s: State)
    requires Quiesced(s) && s.quiet
    ensures NothingHeld(s)
  {
  }

  lemma StepKeepsPartition(s: State, step: Step)
    requires Partition(s) && Quiesced(s) && Legal(s, step)
    ensures Partition(Apply(s, step))
  {
    if step == InitLists {
      QuietHoldsNothing(s);
      InitPartitionIff(s);
    } else {
      var q := Apply(s, step);
      forall op, b: Block
        ensures Places(q, op, b) == if b < PoolSize(q, op) then 1 else 0
      {
        StepConserves(s, step, op, b);
        PoolSizeFixed(s, step);
      }
    }
  }

  lemma PoolSizeFixed(s: State, step: Step)
    requires Enabled(s, step)
    ensures Apply(s, step).rdNr == s.rdNr && Apply(s, step).wtNr == s.wtNr
  {
  }

  lemma StepKeepsReadsConserved(s: State, step: Step)
    requires ReadsConserved(s) && Partition(s) && Counted(s) && Quiesced(s) && Legal(s, step)
    ensures ReadsConserved(Apply(s, step))
  {
    forall p
      ensures ConservedFor(Apply(s, step), p)
    {
      StepConservesReads(s, step, p);
    }
  }

  /** Every legal step keeps the whole invariant. */
  lemma StepKeepsInv(s: State, step: Step)
    requires Inv(s) && Legal(s, step)
    ensures Inv(Apply(s, step))
  {
    StepKeepsPartition(s, step);
    StepKeepsCounted(s, step);
    StepKeepsRwCounted(s, step);
    StepKeepsQuiesced(s, step);
    StepKeepsOrphansStopped(s, step);
    StepKeepsRefillOwed(s, step);
    StepKeepsWriteOrder(s, step);
    StepKeepsReadsConserved(s, step);
  }

  lemma InitialInv(rdMem: seq<Payload>, wtMem: seq<Payload>, n: nat)
    ensures Inv(Initial(rdMem, wtMem, n))
  {
    var s := Initial(rdMem, wtMem, n);
    forall op, b: Block
      ensures Places(s, op, b) == if b < PoolSize(s, op) then 1 else 0
    {
      NumberedOnce(PoolSize(s, op), b);
      HeldNone(s.threads, op, b);
    }
    BusyNone(s.threads);
    InFlightNone(s.rdMem, s.threads);
  }

  lemma {:induction false} RunKeepsInv(s: State, steps: seq<Step>)
    requires Inv(s) && ValidRun(s, steps)
    ensures Inv(Run(s, steps))
    decreases |steps|
  {
    if steps != [] {
      StepKeepsInv(s, steps[0]);
      RunKeepsInv(Apply(s, steps[0]), steps[1..]);
    }
  }

  /** The invariant holds in every reachable state. */
  lemma ReachableInv(s: State)
    requires Reachable(s)
    ensures Inv(s)
  {
    var rdMem, wtMem, n, steps :|
      ValidRun(Initial(rdMem, wtMem, n), steps) && s == Run(Initial(rdMem, wtMem, n), steps);
    InitialInv(rdMem, wtMem, n);
    RunKeepsInv(Initial(rdMem, wtMem, n), steps);
  }

  // ----- what the invariant means -----

  /** Each block of the pool is in exactly one place, and no other block is anywhere. */
  lemma BlockInOnePlace(s: State, op: Op, b: Block)
    requires Reachable(s)
    ensures Places(s, op, b) == if b < PoolSize(s, op) then 1 else 0
  {
    ReachableInv(s);
  }

  /** Two threads never hold the same block, and a held block is on no list the device uses. */
  lemma HeldExclusively(s: State, t: nat, u: nat, op: Op, b: Block)
    requires Reachable(s) && t < |s.threads| && u < |s.threads|
    requires Holds(s.threads[t], op, b)
    ensures Holds(s.threads[u], op, b) ==> t == u
    ensures b !in SideOf(s, op).submit && b !in SideOf(s, op).pending && b !in SideOf(s, op).free
    ensures op == Write ==> b !in s.orphans
  {
    ReachableInv(s);
    assert Places(s, op, b) <= 1;
    HeldIsNowhereElse(s, t, op, b);
    HeldMember(s.threads, t, op, b);
    if Holds(s.threads[u], op, b) && t != u {
      HeldTwice(s.threads, if t < u then t else u, if t < u then u else t, op, b);
    }
  }

  /** Global write FIFO over any number of writers and interrupts since the last start. */
  lemma WriteFifo(s: State)
    requires Reachable(s)
    ensures s.past.committed == s.past.retired + Payloads(s.wtMem, s.wt.submit) + Payloads(s.wtMem, s.wt.pending)
    ensures s.wt.pending != [] ==> |s.wt.submit| == WT_FIFO_DEPTH
  {
    ReachableInv(s);
  }

  /** Free read blocks and FIFO room always have a submitter on its way. */
  lemma RefillNeverLost(s: State)
    requires Reachable(s) && s.enable && s.rd.free != [] && |s.rd.submit| < RD_FIFO_DEPTH
    ensures s.control == Started || exists t :: 0 <= t < |s.threads| && s.threads[t] == RdRefilling
  {
    ReachableInv(s);
  }

  lemma OrphansChange(s: State, step: Step)
    requires Enabled(s, step) && Apply(s, step).orphans != s.orphans
    ensures step == InitLists || (step.Finish? && s.threads[step.t].WtFilled? && !s.enable)
  {
  }

  /** Orphans appear only in a commit that finds DMA stopped, and a start recovers all of them. */
  lemma OrphansComeAndGo(s: State, step: Step)
    requires Reachable(s) && Legal(s, step)
    ensures Apply(s, step).orphans != s.orphans ==>
      step == InitLists || (step.Finish? && s.threads[step.t].WtFilled? && !s.enable)
    ensures s.orphans != [] ==> !s.enable
    ensures step == InitLists ==> Apply(s, step).orphans == []
    ensures step == InitLists ==> forall b: Block :: Occurs(Apply(s, step).wt.free, b) == if b < s.wtNr then 1 else 0
  {
    ReachableInv(s);
    if Apply(s, step).orphans != s.orphans {
      OrphansChange(s, step);
    }
    if step == InitLists {
      forall b: Block
        ensures Occurs(Apply(s, step).wt.free, b) == if b < s.wtNr then 1 else 0
      {
        NumberedOnce(s.wtNr, b);
      }
    }
  }

  // ----- a stop that returns 0 -----

  /** Nothing a running device or thread could change differs between the two states. */
  predicate SameLists(s: State, q: State)
  {
    s.rd == q.rd && s.wt == q.wt && s.orphans == q.orphans && s.rdMem == q.rdMem && s.wtMem == q.wtMem
    && s.past == q.past
  }

  lemma QuietStep(s: State, step: Step)
    requires Inv(s) && s.quiet && Legal(s, step) && step != InitLists
    ensures SameLists(s, Apply(s, step)) && Apply(s, step).quiet
  {
  }

  lemma {:induction false} QuietRun(s: State, steps: seq<Step>)
    requires Inv(s) && s.quiet && ValidRun(s, steps) && InitLists !in steps
    ensures SameLists(s, Run(s, steps)) && NothingHeld(Run(s, steps)) && !Run(s, steps).enable
    decreases |steps|
  {
    QuietHoldsNothing(s);
    if steps != [] {
      QuietStep(s, steps[0]);
      StepKeepsInv(s, steps[0]);
      QuietRun(Apply(s, steps[0]), steps[1..]);
    }
  }

  /** A stop that returns 0 leaves every thread outside; until the lists are initialised again nothing moves. */
  lemma StopQuiesces(s: State, steps: seq<Step>)
    requires Reachable(s) && s.control.Polling? && s.rwCnt == 0
    requires ValidRun(Apply(s, Poll), steps) && InitLists !in steps
    ensures forall t | 0 <= t < |s.threads| :: s.threads[t] == Idle
    ensures var q := Run(Apply(s, Poll), steps);
      SameLists(s, q) && NothingHeld(q) && !q.enable
  {
    ReachableInv(s);
    forall t | 0 <= t < |s.threads|
      ensures s.threads[t] == Idle
    {
      BusyZero(s.threads, t);
    }
    StepKeepsInv(s, Poll);
    QuietRun(Apply(s, Poll), steps);
  }

  // ----- a single reader -----

  /** At most one reader carries an undelivered block, in every state of the run. */
  ghost predicate AlwaysSingleReader(s: State, steps: seq<Step>)
    requires ValidRun(s, steps)
    decreases |steps|
  {
    SingleReader(s) && (steps != [] ==> AlwaysSingleReader(Apply(s, steps[0]), steps[1..]))
  }

  lemma {:induction false} SingleReaderRun(s: State, steps: seq<Step>)
    requires Inv(s) && ReadOrder(s) && ValidRun(s, steps) && AlwaysSingleReader(s, steps)
    ensures ReadOrder(Run(s, steps))
    decreases |steps|
  {
    if steps != [] {
      StepKeepsReadOrder(s, steps[0]);
      StepKeepsInv(s, steps[0]);
      SingleReaderRun(Apply(s, steps[0]), steps[1..]);
    }
  }

  /** With one reader at a time, what was delivered is a prefix of the completion order, failed copies included. */
  lemma SingleReaderOrder(rdMem: seq<Payload>, wtMem: seq<Payload>, n: nat, steps: seq<Step>)
    requires ValidRun(Initial(rdMem, wtMem, n), steps)
    requires AlwaysSingleReader(Initial(rdMem, wtMem, n), steps)
    ensures var s := Run(Initial(rdMem, wtMem, n), steps);
      && s.past.delivered <= s.past.completed
      && s.past.completed == s.past.delivered + InFlight(s.rdMem, s.threads) + Payloads(s.rdMem, s.rd.pending)
  {
    var s := Initial(rdMem, wtMem, n);
    InitialInv(rdMem, wtMem, n);
    InFlightNone(s.rdMem, s.threads);
    SingleReaderRun(s, steps);
  }

  /** With any number of readers, delivered payloads were completed, and no more often than that. */
  lemma DeliveredWereCompleted(s: State, p: Payload)
    requires Reachable(s)
    ensures Copies(s.past.delivered, p) <= Copies(s.past.completed, p)
    ensures Copies(s.past.completed, p) == Copies(s.past.delivered, p)
      + Copies(InFlight(s.rdMem, s.threads), p) + Copies(Payloads(s.rdMem, s.rd.pending), p)
  {
    ReachableInv(s);
    assert ConservedFor(s, p);
  }

  // ----- two runs worth knowing -----

  lemma {:induction false} RunAppend(s: State, steps: seq<Step>, step: Step)
    requires ValidRun(s, steps) && Legal(Run(s, steps), step)
    ensures ValidRun(s, steps + [step]) && Run(s, steps + [step]) == Apply(Run(s, steps), step)
    decreases |steps|
  {
    if steps == [] {
      assert [step][1..] == [];
      assert [] + [step] == [step];
    } else {
      RunAppend(Apply(s, steps[0]), steps[1..], step);
      assert (steps + [step])[1..] == steps[1..] + [step];
    }
  }

  lemma ReachableStep(s: State, step: Step)
    requires Reachable(s) && Legal(s, step)
    ensures Reachable(Apply(s, step))
  {
    var rdMem, wtMem, n, steps :|
      ValidRun(Initial(rdMem, wtMem, n), steps) && s == Run(Initial(rdMem, wtMem, n), steps);
    RunAppend(Initial(rdMem, wtMem, n), steps, step);
  }

  lemma ReachableInitial(rdMem: seq<Payload>, wtMem: seq<Payload>, n: nat)
    ensures Reachable(Initial(rdMem, wtMem, n))
  {
    assert ValidRun(Initial(rdMem, wtMem, n), []) && Run(Initial(rdMem, wtMem, n), []) == Initial(rdMem, wtMem, n);
  }

  /** The lists of a device with one block each way, just initialised by a START. */
  lemma Initialised() returns (s: State)
    ensures Reachable(s) && s == ListsInitialised(Initial([[]], [[]], 1).(control := Starting))
  {
    s := Initial([[]], [[]], 1);
    ReachableInitial([[]], [[]], 1);
    ReachableStep(s, StartBegin);
    s := Apply(s, StartBegin);
    ReachableStep(s, InitLists);
    s := Apply(s, InitLists);
  }

  /** The state the two runs below start from: DMA on, one thread, the read block submitted. */
  predicate OneThread(s: State, pc: Pc)
  {
    && s.enable && !s.quiet && s.control == NoControl && s.threads == [pc] && s.wtNr == 1
    && s.rd.submit == [0] && s.rd.submitCnt == 1 && s.rd.pending == [] && s.rd.free == [] && s.wt.free == [0]
    && s.rwCnt == if pc == Idle then 0 else 1
  }

  lemma JustStarted() returns (s: State)
    ensures Reachable(s) && OneThread(s, Idle)
  {
    s := Initialised();
    RdRefillMoves(s.rd);
    assert s.rd.free[..1] == [0];
    ReachableStep(s, StartRefill);
    s := Apply(s, StartRefill);
  }

  lemma CheckedThread(op: Op) returns (s: State)
    ensures Reachable(s) && OneThread(s, Checked(op))
  {
    s := JustStarted();
    ReachableStep(s, Enter(0, op));
    s := Apply(s, Enter(0, op));
    assert OneThread(s, Entered(op));
    ReachableStep(s, Check(0, true));
    s := Apply(s, Check(0, true));
  }

  lemma CompletedBlock() returns (s: State)
    ensures Reachable(s) && s.threads == [Checked(Read)] && s.rd.pending == [0] && s.control == NoControl
  {
    s := CheckedThread(Read);
    var m := RdInterruptMoves(s.rd, 1);
    assert s.rd.submit[..1] == [0];
    ReachableStep(s, Interrupt([[]], 0));
    s := Apply(s, Interrupt([[]], 0));
  }

  /** A reader past its first test takes a pending block although DMA is already off. */
  lemma LateTakeReachable() returns (s: State)
    ensures Reachable(s) && !s.enable && Enabled(s, Try(0, true)) && Apply(s, Try(0, true)).threads[0] == RdHeld(0)
  {
    s := CompletedBlock();
    ReachableStep(s, StopBegin);
    s := Apply(s, StopBegin);
  }

  lemma HeldWhileStarting() returns (s: State)
    ensures Reachable(s) && s.threads == [WtHeld(0)] && s.rwCnt == 1 && s.wtNr == 1
    ensures s.control == Resetting(true) && !s.quiet
  {
    s := CheckedThread(Write);
    ReachableStep(s, Try(0, true));
    s := Apply(s, Try(0, true));
    assert s.threads == [WtHeld(0)] && s.enable && s.control == NoControl && s.rwCnt == 1 && s.wtNr == 1;
    ReachableStep(s, StartBegin);
    s := Apply(s, StartBegin);
  }

  /** A START whose stop timed out puts a block on the free list that a writer still holds. */
  lemma StartAfterFailedStop() returns (s: State)
    ensures Reachable(s) && Enabled(s, InitLists) && !s.quiet
    ensures Places(Apply(s, InitLists), Write, 0) == 2 && !Partition(Apply(s, InitLists))
  {
    s := HeldWhileStarting();
    ReachableStep(s, ResetDone(true));
    s := Apply(s, ResetDone(true));
    ReachableStep(s, PollTimeout);
    s := Apply(s, PollTimeout);
    HeldTwicePlaces(s);
  }

  lemma HeldTwicePlaces(s: State)
    requires s.threads == [WtHeld(0)] && s.wtNr == 1
    ensures Places(ListsInitialised(s), Write, 0) == 2 && !Partition(ListsInitialised(s))
  {
    InitPlaces(s, Write, 0);
    assert s.threads[..0] == [] && HeldCount([], Write, 0) == 0;
    assert HeldCount(s.threads, Write, 0) == 1;
  }
}
