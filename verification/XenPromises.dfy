/**
 What the service thread of the back end promises over every interleaving: lock-step indices, responses in
 request order, and no lost wakeup.
 */
module XenPromises {
  import opened Words
  import opened XenRing
  import opened XenBackend

  // ----- indices -----

  lemma WrapInjective(m: nat, n: nat)
    requires m <= n < m + TWO32 && Wrap(m) == Wrap(n)
    ensures m == n
  {
    MinusExact(n, m);
  }

  /** At the head of the service loop responses have caught up with requests, so the overflow guard is false. */
  lemma LockStep(s: State)
    requires Indices(s) && s.thread == Draining
    ensures s.rspPvt == s.reqCons && !Overflow(s.reqCons, s.rspPvt, s.size)
  {
    MinusExact(|s.answered|, |s.answered|);
  }

  /** Away from the service of a request the work count is the number of unconsumed requests. */
  lemma WorkLeft(s: State)
    requires Indices(s) && s.thread != Serving && s.thread != Responding
    ensures Work(s) == |s.sent| - Consumed(s)
  {
    UnconsumedExact(|s.sent|, Consumed(s), s.size);
  }

  lemma PublishKeepsIndices(s: State, requests: seq<Slot>)
    requires Indices(s) && Enabled(s, Publish(requests))
    ensures Indices(PublishRequests(s, requests))
  {
    MinusExact(|s.sent|, |s.received|);
    WrapAdd(|s.sent|, |requests|);
  }

  lemma ReceiveKeepsIndices(s: State)
    requires Indices(s) && s.rspCons != s.rspProd
    ensures Indices(ReceiveResponse(s))
  {
    IncWraps(|s.received|);
  }

  lemma GoalMeansWork(s: State)
    requires Indices(s) && GoalReached(s) && s.thread == Draining && s.reqCons != s.goal
    ensures Consumed(s) < |s.sent|
    ensures exists g :: Consumed(s) + 1 <= g <= |s.sent| && s.goal == Wrap(g)
  {
    var g :| Consumed(s) <= g <= |s.sent| && s.goal == Wrap(g);
    assert g != Consumed(s);
  }

  /** The steps that neither move an index of the rings nor write a slot. */
  predicate Plain(s: State, step: Step)
    requires Enabled(s, step)
  {
    !step.Publish? && !step.Receive?
    && (step.Advance? ==> s.thread != Serving && s.thread != Responding && !Takes(s, step.pooled))
  }

  /** The service loop consumes a request. */
  predicate Takes(s: State, pooled: bool)
  {
    s.thread == Draining && Consume(s, pooled).thread == Serving
  }

  predicate InService(t: Thread)
  {
    t == Serving || t == Responding
  }

  predicate SameRing(s: State, q: State)
  {
    && s.size == q.size && s.slots == q.slots && s.reqProd == q.reqProd && s.rspProd == q.rspProd
    && s.reqCons == q.reqCons && s.rspPvt == q.rspPvt && s.rspCons == q.rspCons
    && s.sent == q.sent && s.errors == q.errors && s.outcomes == q.outcomes
    && s.answered == q.answered && s.received == q.received
    && (q.front == s.front || q.front == Quiet)
    && (s.thread == q.thread || (!InService(s.thread) && !InService(q.thread)))
  }

  lemma DrainSameRing(s: State, pooled: bool)
    requires s.thread == Draining && !Takes(s, pooled)
    ensures SameRing(s, Consume(s, pooled))
  {
  }

  lemma IdleAdvanceSameRing(s: State, pooled: bool, error: bool)
    requires RingSize(s.size) && |s.slots| == s.size && !InService(s.thread) && s.thread != Draining
    ensures SameRing(s, AdvanceThread(s, pooled, error))
  {
  }

  lemma PlainStepSameRing(s: State, step: Step)
    requires Enabled(s, step) && Plain(s, step)
    ensures SameRing(s, Apply(s, step))
  {
    match step
    case Advance(pooled, error) =>
      if s.thread == Draining {
        DrainSameRing(s, pooled);
      } else {
        IdleAdvanceSameRing(s, pooled, error);
      }
    case TestEvent =>
    case Interrupt =>
    case Stop =>
  }

  lemma SameRingKeepsIndices(s: State, q: State)
    requires SameRing(s, q) && Indices(s)
    ensures Indices(q)
  {
  }

  lemma SameRingKeepsMemory(s: State, q: State)
    requires SameRing(s, q) && Indices(s) && Indices(q) && Memory(s)
    ensures Memory(q)
  {
  }

  lemma SameRingKeepsAnswers(s: State, q: State)
    requires SameRing(s, q) && Answers(s)
    ensures Answers(q)
  {
  }

  lemma TakeKeepsIndices(s: State)
    requires Indices(s) && GoalReached(s) && Takes(s, true)
    ensures Indices(Consume(s, true)) && Consumed(s) < |s.sent|
  {
    IncWraps(Consumed(s));
    GoalMeansWork(s);
  }

  lemma ExecuteKeepsIndices(s: State, error: bool)
    requires Indices(s) && s.thread == Serving
    ensures Indices(Execute(s, error))
  {
  }

  lemma RespondKeepsIndices(s: State)
    requires Indices(s) && s.thread == Responding
    ensures Indices(Respond(s))
  {
    IncWraps(|s.answered|);
  }

  lemma ConsumeKeepsGoal(s: State, pooled: bool)
    requires Indices(s) && GoalReached(s) && s.thread == Draining
    ensures GoalReached(Consume(s, pooled))
  {
    if s.reqCons != s.goal {
      GoalMeansWork(s);
    }
  }

  lemma AdvanceKeepsGoal(s: State, pooled: bool, error: bool)
    requires Indices(s) && GoalReached(s)
    ensures GoalReached(AdvanceThread(s, pooled, error))
  {
    match s.thread
    case Draining => ConsumeKeepsGoal(s, pooled);
    case Serving => GoalStays(s, Execute(s, error));
    case Responding => GoalStays(s, Respond(s));
    case Snapshot =>
      var q := AdvanceThread(s, pooled, error);
      assert Consumed(q) <= |s.sent| && q.goal == Wrap(|s.sent|);
    case _ =>
  }

  lemma GoalStays(s: State, q: State)
    requires GoalReached(s) && (s.thread == Draining || s.thread == Serving || s.thread == Responding)
    requires Consumed(q) == Consumed(s) && |s.sent| <= |q.sent| && s.goal == q.goal
    ensures GoalReached(q)
  {
    var g :| Consumed(s) <= g <= |s.sent| && s.goal == Wrap(g);
    assert Consumed(q) <= g <= |q.sent| && q.goal == Wrap(g);
  }

  lemma StepKeepsIndices(s: State, step: Step)
    requires Indices(s) && GoalReached(s) && Enabled(s, step)
    ensures Indices(Apply(s, step))
  {
    if Plain(s, step) {
      PlainStepSameRing(s, step);
      SameRingKeepsIndices(s, Apply(s, step));
    } else {
      match step
      case Publish(requests) => PublishKeepsIndices(s, requests);
      case Receive => ReceiveKeepsIndices(s);
      case Advance(_, error) =>
        match s.thread
        case Serving => ExecuteKeepsIndices(s, error);
        case Responding => RespondKeepsIndices(s);
        case _ => TakeKeepsIndices(s);
    }
  }

  lemma StepKeepsGoal(s: State, step: Step)
    requires Indices(s) && GoalReached(s) && Enabled(s, step)
    ensures GoalReached(Apply(s, step))
  {
    if step.Advance? {
      AdvanceKeepsGoal(s, step.pooled, step.error);
    } else if s.thread == Draining || s.thread == Serving || s.thread == Responding {
      GoalStays(s, Apply(s, step));
    }
  }

  // ----- ring memory -----

  /** Publishing writes the new requests to their slots and leaves every other slot of the window alone. */
  lemma {:induction false} FillAt(slots: seq<Slot>, n: nat, requests: seq<Slot>, k: nat)
    requires RingSize(|slots|) && |requests| <= |slots|
    requires n + |requests| - |slots| <= k < n + |requests|
    ensures Fill(slots, Wrap(n), requests)[SlotOf(k, |slots|)]
         == if k < n then slots[SlotOf(k, |slots|)] else requests[k - n]
    decreases |requests|
  {
    if requests != [] {
      var size := |slots|;
      WrapKeepsSlot(n, size);
      IncWraps(n);
      FillAt(slots[SlotOf(n, size) := requests[0]], n + 1, requests[1..], k);
      if k < n {
        SlotsDiffer(k, n, size);
      }
    }
  }

  lemma PublishedSlot(s: State, requests: seq<Slot>, k: nat)
    requires Indices(s) && Enabled(s, Publish(requests)) && |s.received| <= k < |s.sent| + |requests|
    ensures PublishRequests(s, requests).slots[SlotOf(k, s.size)]
         == if k < |s.sent| then s.slots[SlotOf(k, s.size)] else requests[k - |s.sent|]
  {
    MinusExact(|s.sent|, |s.received|);
    FillAt(s.slots, |s.sent|, requests, k);
  }

  lemma PublishKeepsMemory(s: State, requests: seq<Slot>)
    requires Indices(s) && Memory(s) && Answers(s) && Enabled(s, Publish(requests))
    requires Indices(PublishRequests(s, requests))
    ensures Memory(PublishRequests(s, requests))
  {
    var q := PublishRequests(s, requests);
    forall k | |s.received| <= k < |s.answered|
      ensures q.slots[SlotOf(k, s.size)] == s.answered[k]
    {
      PublishedSlot(s, requests, k);
    }
    forall k | Consumed(s) <= k < |q.sent|
      ensures q.slots[SlotOf(k, s.size)] == q.sent[k]
    {
      PublishedSlot(s, requests, k);
    }
    if InService(s.thread) {
      PublishedSlot(s, requests, |s.answered|);
    }
  }

  lemma CurrentSlot(s: State)
    requires Indices(s) && (s.thread == Serving || s.thread == Responding)
    ensures Current(s) == SlotOf(|s.answered|, s.size) == SlotOf(s.rspPvt, s.size)
  {
    IncWraps(|s.answered|);
    WrapKeepsSlot(|s.answered|, s.size);
  }

  /** Writing one slot of the window leaves the others. */
  lemma OthersKept(s: State, j: nat, v: Slot)
    requires Indices(s) && |s.received| <= j < |s.received| + s.size
    ensures forall k | |s.received| <= k < |s.received| + s.size && k != j ::
      s.slots[SlotOf(j, s.size) := v][SlotOf(k, s.size)] == s.slots[SlotOf(k, s.size)]
  {
    forall k | |s.received| <= k < |s.received| + s.size && k != j
      ensures SlotOf(k, s.size) != SlotOf(j, s.size)
    {
      if k < j {
        SlotsDiffer(k, j, s.size);
      } else {
        SlotsDiffer(j, k, s.size);
      }
    }
  }

  lemma ExecuteKeepsMemory(s: State, error: bool)
    requires Indices(s) && Memory(s) && Answers(s) && s.thread == Serving
    ensures Indices(Execute(s, error)) && Memory(Execute(s, error))
  {
    CurrentSlot(s);
    OthersKept(s, |s.answered|, Executed(s.sent[|s.answered|], Fails(s.sent[|s.answered|].operation, error)));
  }

  lemma RespondKeepsMemory(s: State)
    requires Indices(s) && Memory(s) && s.thread == Responding && Indices(Respond(s))
    ensures Memory(Respond(s))
  {
    CurrentSlot(s);
    OthersKept(s, |s.answered|, Response(s.slots[Current(s)]));
  }

  lemma TakeKeepsMemory(s: State)
    requires Indices(s) && GoalReached(s) && Memory(s) && Takes(s, true)
    requires Indices(Consume(s, true))
    ensures Memory(Consume(s, true))
  {
    GoalMeansWork(s);
  }

  lemma ReceiveKeepsMemory(s: State)
    requires Indices(s) && Memory(s) && s.rspCons != s.rspProd && Indices(ReceiveResponse(s))
    ensures Memory(ReceiveResponse(s))
  {
  }

  lemma StepKeepsMemory(s: State, step: Step)
    requires Indices(s) && GoalReached(s) && Memory(s) && Answers(s) && Enabled(s, step)
    requires Indices(Apply(s, step))
    ensures Memory(Apply(s, step))
  {
    if Plain(s, step) {
      PlainStepSameRing(s, step);
      SameRingKeepsMemory(s, Apply(s, step));
    } else {
      match step
      case Publish(requests) => PublishKeepsMemory(s, requests);
      case Receive => ReceiveKeepsMemory(s);
      case Advance(_, error) =>
        match s.thread
        case Serving => ExecuteKeepsMemory(s, error);
        case Responding => RespondKeepsMemory(s);
        case _ => TakeKeepsMemory(s);
    }
  }

  // ----- responses -----

  lemma ReceiveKeepsAnswers(s: State)
    requires Indices(s) && Memory(s) && Answers(s) && s.rspCons != s.rspProd
    ensures Answers(ReceiveResponse(s))
  {
    WrapKeepsSlot(|s.received|, s.size);
    assert s.received < s.answered;
    assert s.answered[..|s.received| + 1] == s.answered[..|s.received|] + [s.answered[|s.received|]];
  }

  lemma ExecuteKeepsAnswers(s: State, error: bool)
    requires Indices(s) && Memory(s) && Answers(s) && s.thread == Serving
    ensures Answers(Execute(s, error))
  {
    CurrentSlot(s);
  }

  lemma RespondKeepsAnswers(s: State)
    requires Indices(s) && Memory(s) && Answers(s) && s.thread == Responding
    ensures Answers(Respond(s))
  {
    CurrentSlot(s);
  }

  lemma PublishKeepsAnswers(s: State, requests: seq<Slot>)
    requires Answers(s) && Enabled(s, Publish(requests))
    ensures Answers(PublishRequests(s, requests))
  {
  }

  lemma StepKeepsAnswers(s: State, step: Step)
    requires Indices(s) && Memory(s) && Answers(s) && Enabled(s, step)
    ensures Answers(Apply(s, step))
  {
    if Plain(s, step) {
      PlainStepSameRing(s, step);
      SameRingKeepsAnswers(s, Apply(s, step));
    } else {
      match step
      case Publish(requests) => PublishKeepsAnswers(s, requests);
      case Receive => ReceiveKeepsAnswers(s);
      case Advance(_, error) =>
        match s.thread
        case Serving => ExecuteKeepsAnswers(s, error);
        case Responding => RespondKeepsAnswers(s);
        case _ =>
    }
  }

  // ----- wakeups -----

  /** A batch published after the event index was armed raises the event. */
  lemma ArmedNotifies(s: State)
    requires Indices(s) && Armed(s) && s.front.Published? && Consumed(s) == |s.sent| - s.front.n
    ensures MustNotify(s.front.before, s.reqProd, s.reqEvent)
  {
    NotifyIff(Consumed(s), |s.sent|, Consumed(s) + 1);
  }

  lemma TestEventKeepsAwake(s: State)
    requires Indices(s) && Awake(s) && Enabled(s, TestEvent)
    ensures Awake(Apply(s, TestEvent))
  {
    if Armed(s) && Consumed(s) == |s.sent| - s.front.n {
      ArmedNotifies(s);
    }
  }

  lemma ArmingKeepsAwake(s: State)
    requires Indices(s) && s.thread == Arming
    ensures Awake(Arm(s))
  {
    IncWraps(Consumed(s));
  }

  lemma SecondCheckKeepsAwake(s: State, pooled: bool, error: bool)
    requires Indices(s) && Awake(s) && s.thread == SecondCheck
    ensures Awake(AdvanceThread(s, pooled, error))
  {
    WorkLeft(s);
  }

  lemma OtherThreadKeepsAwake(s: State, pooled: bool, error: bool)
    requires Indices(s) && Awake(s) && s.thread != Arming && s.thread != SecondCheck
    ensures Awake(AdvanceThread(s, pooled, error))
  {
    var q := AdvanceThread(s, pooled, error);
    match s.thread
    case Top => assert q.waiting == s.waiting && q.event == s.event && q.front == s.front;
    case Draining => assert q.thread in {FirstCheck, MoreToDo, Serving};
    case Serving => assert q.thread == Responding;
    case Responding => assert q.thread == Draining;
    case _ =>
  }

  lemma StepKeepsAwake(s: State, step: Step)
    requires Indices(s) && Awake(s) && Enabled(s, step)
    ensures Awake(Apply(s, step))
  {
    match step
    case TestEvent => TestEventKeepsAwake(s);
    case Advance(pooled, error) =>
      match s.thread {
        case Arming => ArmingKeepsAwake(s);
        case SecondCheck => SecondCheckKeepsAwake(s, pooled, error);
        case _ => OtherThreadKeepsAwake(s, pooled, error);
      }
    case _ =>
  }

  // ----- over whole runs -----

  lemma StepKeepsInv(s: State, step: Step)
    requires Inv(s) && Enabled(s, step)
    ensures Inv(Apply(s, step))
  {
    StepKeepsIndices(s, step);
    StepKeepsGoal(s, step);
    StepKeepsMemory(s, step);
    StepKeepsAnswers(s, step);
    StepKeepsAwake(s, step);
  }

  lemma {:induction false} RunKeepsInv(s: State, steps: seq<Step>)
    requires Inv(s) && ValidRun(s, steps)
    ensures Inv(Run(s, steps))
    decreases |steps|
  {
    if steps != [] {
      StepKeepsInv(s, steps[0]);
      RunKeepsInv(Apply(s, steps[0]), steps[1..]);
    }
  }

  ghost predicate Reachable(s: State)
  {
    exists s0, steps :: Initial(s0) && ValidRun(s0, steps) && s == Run(s0, steps)
  }

  lemma ReachableInv(s: State)
    requires Reachable(s)
    ensures Inv(s)
  {
    var s0, steps :| Initial(s0) && ValidRun(s0, steps) && s == Run(s0, steps);
    RunKeepsInv(s0, steps);
  }

  /** Responses stay in lock-step with requests: the guard against a full ring never stops the loop. */
  lemma GuardNeverFires(s: State)
    requires Reachable(s) && s.thread == Draining
    ensures s.rspPvt == s.reqCons && !Overflow(s.reqCons, s.rspPvt, s.size)
  {
    ReachableInv(s);
    LockStep(s);
  }

  lemma StatusRestored(status: Word)
    ensures Inc(Dec(status)) == status
  {
  }

  /**
   Responses come in request order, each with the id and operation of its request; the status is one higher
   (modulo 2^32) on success and the original on failure, although the response overwrites the slot it answers. Open,
   write and close always succeed, an ioctl exactly if the device reports no error, anything else never.
   */
  lemma ResponsesMatchRequests(s: State, k: nat)
    requires Reachable(s) && k < |s.answered|
    ensures k < |s.sent| && k < |s.errors|
    ensures s.answered[k].id == s.sent[k].id && s.answered[k].operation == s.sent[k].operation
    ensures s.sent[k].operation in {OP_OPEN, OP_WRITE, OP_CLOSE} ==> s.answered[k].status == Inc(s.sent[k].status)
    ensures s.sent[k].operation == OP_IOCTL ==>
      s.answered[k].status == if s.errors[k] then s.sent[k].status else Inc(s.sent[k].status)
    ensures s.sent[k].operation !in {OP_OPEN, OP_WRITE, OP_IOCTL, OP_CLOSE} ==>
      s.answered[k].status == s.sent[k].status
  {
    ReachableInv(s);
    StatusRestored(s.sent[k].status);
    assert FailsAs(s.sent[k].operation, s.errors[k], s.outcomes[k]);
  }

  /** The answer logged is the one the device gave when the request was executed. */
  lemma DeviceAnswers(s: State, pooled: bool, error: bool)
    requires Reachable(s) && s.thread == Serving && Enabled(s, Advance(pooled, error))
    ensures var q := Apply(s, Advance(pooled, error));
      q.thread == Responding && q.errors == s.errors + [error] && |q.errors| == |s.answered| + 1
  {
    ReachableInv(s);
  }

  /** The frontend reads exactly the responses made, in order, however pushes and service interleave. */
  lemma FrontendReadsResponses(s: State)
    requires Reachable(s)
    ensures s.received <= s.answered && |s.answered| <= |s.sent| <= |s.received| + s.size
  {
    ReachableInv(s);
  }

  /** The thread is waiting for requests, and nothing has told it to run. */
  predicate SleepsQuietly(s: State)
  {
    s.thread == WaitRequest && !s.waiting && !s.event
  }

  /** The first thing the thread of a new ring does is go to sleep with the event index armed. */
  lemma SleepReachable(s0: State)
    requires Initial(s0)
    ensures Enabled(s0, Advance(true, false))
    ensures var s := Apply(s0, Advance(true, false));
      Reachable(s) && SleepsQuietly(s) && s.front == Quiet && s.reqEvent == Inc(s.reqCons)
  {
    var step := Advance(true, false);
    var s := Apply(s0, step);
    assert ValidRun(s, []) && Run(s, []) == s;
    assert [step][1..] == [];
    assert ValidRun(s0, [step]) && Run(s0, [step]) == s;
  }

  /** Asleep with no wakeup under way: every request published is answered, and the next push will notify. */
  lemma NoLostWakeup(s: State, requests: seq<Slot>)
    requires Reachable(s) && SleepsQuietly(s) && s.front == Quiet
    ensures |s.answered| == |s.sent| && s.reqCons == s.reqProd
    ensures Enabled(s, Publish(requests)) ==> Apply(Apply(s, Publish(requests)), TestEvent).event
  {
    ReachableInv(s);
    if Enabled(s, Publish(requests)) {
      PublishKeepsIndices(s, requests);
      ArmedNotifies(Apply(s, Publish(requests)));
    }
  }

  /** Asleep in the middle of a push: either its requests are already answered or its test raises the event. */
  lemma PushInFlightNotifies(s: State)
    requires Reachable(s) && SleepsQuietly(s) && s.front.Published?
    ensures Enabled(s, TestEvent) && (|s.answered| == |s.sent| || Apply(s, TestEvent).event)
  {
    ReachableInv(s);
    if |s.answered| != |s.sent| {
      ArmedNotifies(s);
    }
  }
}
