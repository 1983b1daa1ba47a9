/**
 What the service thread gets done when it is left alone (ire/backup_con/dom0_141223_blocksz/data.c): woken, it answers
 everything published and goes back to sleep; told to stop, it leaves its outer loop.
 */
module XenProgress {
  import opened Words
  import opened XenRing
  import opened XenBackend
  import opened XenPromises

  /** A run of the service thread alone. */
  ghost predicate Alone(s: State, steps: seq<Step>, q: State)
  {
    ValidRun(s, steps) && Run(s, steps) == q && forall step | step in steps :: step.Advance?
  }

  ghost predicate Gets(s: State, q: State)
  {
    exists steps :: Alone(s, steps, q)
  }

  lemma GetsNowhere(s: State)
    ensures Gets(s, s)
  {
    assert Alone(s, [], s);
  }

  lemma GetsFirst(s: State, step: Step, q: State)
    requires Enabled(s, step) && step.Advance? && Gets(Apply(s, step), q)
    ensures Gets(s, q)
  {
    var steps :| Alone(Apply(s, step), steps, q);
    assert ([step] + steps)[1..] == steps;
    assert Alone(s, [step] + steps, q);
  }

  const GO := Advance(true, false)

  /** At rest between requests, with nothing going on at the frontend. */
  ghost predicate Resting(s: State, thread: Thread)
  {
    Inv(s) && s.thread == thread && s.front == Quiet && !s.event && !s.stop
  }

  predicate SameRequests(s: State, q: State)
  {
    q.sent == s.sent && q.answered == s.answered && q.errors == s.errors
  }

  /** The thread's steps that neither consume nor answer. */
  lemma Moves(s: State, next: Thread) returns (q: State)
    requires Inv(s) && s.front == Quiet && !s.event && !s.stop && Enabled(s, GO)
    requires s.thread != Serving && s.thread != Responding && (s.thread == Draining ==> s.reqCons == s.goal)
    requires AdvanceThread(s, true, false).thread == next
    ensures q == Apply(s, GO) && Resting(q, next) && SameRequests(s, q)
    ensures q.waiting == if s.thread == Clearing then false else if s.thread == MoreToDo then true else s.waiting
    ensures s.thread == Snapshot ==> q.goal == q.reqProd
    ensures s.thread != Snapshot ==> q.goal == s.goal
    ensures q.reqProd == s.reqProd && q.reqCons == s.reqCons
  {
    StepKeepsInv(s, GO);
    q := Apply(s, GO);
  }

  /** At the head of the loop with all that was published as its goal. */
  ghost predicate AtHead(s: State)
  {
    Resting(s, Draining) && s.goal == s.reqProd && !s.waiting
  }

  lemma HeadWork(s: State)
    requires AtHead(s)
    ensures s.reqCons == s.goal <==> |s.answered| == |s.sent|
    ensures s.reqCons != s.goal ==> !Overflow(s.reqCons, s.rspPvt, s.size)
  {
    LockStep(s);
    if s.reqCons == s.goal {
      WrapInjective(|s.answered|, |s.sent|);
    }
  }

  /** What one turn adds. */
  ghost predicate OneMore(s: State, q: State, error: bool)
  {
    && q.sent == s.sent && |q.answered| == |s.answered| + 1 && s.answered <= q.answered
    && q.errors == s.errors + [error]
  }

  ghost predicate InTurn(s: State, thread: Thread)
  {
    Resting(s, thread) && s.goal == s.reqProd && !s.waiting
  }

  lemma Consumes(s: State) returns (q: State)
    requires AtHead(s) && s.reqCons != s.goal
    ensures Enabled(s, GO) && q == Apply(s, GO) && InTurn(q, Serving) && SameRequests(s, q)
  {
    HeadWork(s);
    StepKeepsInv(s, GO);
    q := Apply(s, GO);
  }

  lemma Executes(s: State, error: bool) returns (q: State)
    requires InTurn(s, Serving)
    ensures Enabled(s, Advance(true, error)) && q == Apply(s, Advance(true, error)) && InTurn(q, Responding)
    ensures q.sent == s.sent && q.answered == s.answered && q.errors == s.errors + [error]
  {
    StepKeepsInv(s, Advance(true, error));
    q := Apply(s, Advance(true, error));
  }

  lemma Responds(s: State) returns (q: State)
    requires InTurn(s, Responding)
    ensures Enabled(s, GO) && q == Apply(s, GO) && AtHead(q)
    ensures q.sent == s.sent && q.errors == s.errors
    ensures |q.answered| == |s.answered| + 1 && s.answered <= q.answered
  {
    StepKeepsInv(s, GO);
    q := Apply(s, GO);
  }

  /** One request is consumed, executed with the device's answer, and answered. */
  lemma Turn(s: State, error: bool) returns (q: State)
    requires AtHead(s) && s.reqCons != s.goal
    ensures AtHead(q) && OneMore(s, q, error)
    ensures forall r | Gets(q, r) :: Gets(s, r)
  {
    var s1 := Consumes(s);
    var s2 := Executes(s1, error);
    q := Responds(s2);
    forall r | Gets(q, r)
      ensures Gets(s, r)
    {
      GetsFirst(s2, GO, r);
      GetsFirst(s1, Advance(true, error), r);
      GetsFirst(s, GO, r);
    }
  }

  /** The device's answers to the requests served are the ones given. */
  ghost predicate AnsweredWith(s: State, q: State, errors: nat -> bool)
  {
    && q.sent == s.sent && s.answered <= q.answered && |q.answered| == |q.sent| == |q.errors| && s.errors <= q.errors
    && forall k | |s.answered| <= k < |q.answered| :: q.errors[k] == errors(k)
  }

  /** Everything published is answered. */
  ghost predicate Done(s: State, thread: Thread)
  {
    Resting(s, thread) && !s.waiting && |s.answered| == |s.sent|
  }

  lemma DoneMoves(s: State, next: Thread) returns (q: State)
    requires Done(s, s.thread)
    requires (s.thread == FirstCheck && next == Arming) || (s.thread == Arming && next == SecondCheck)
          || (s.thread == SecondCheck && next == Top) || (s.thread == Top && next == WaitRequest)
    ensures Done(q, next) && SameRequests(s, q) && forall r | Gets(q, r) :: Gets(s, r)
  {
    WorkLeft(s);
    q := Moves(s, next);
    forall r | Gets(q, r)
      ensures Gets(s, r)
    {
      GetsFirst(s, GO, r);
    }
  }

  lemma EndsAsleep(s: State) returns (q: State)
    requires AtHead(s) && s.reqCons == s.goal
    ensures Gets(s, q) && Resting(q, WaitRequest) && !q.waiting && SameRequests(s, q)
  {
    HeadWork(s);
    var s1 := Moves(s, FirstCheck);
    var s2 := DoneMoves(s1, Arming);
    var s3 := DoneMoves(s2, SecondCheck);
    var s4 := DoneMoves(s3, Top);
    q := DoneMoves(s4, WaitRequest);
    GetsNowhere(q);
    GetsFirst(s, GO, q);
  }

  lemma {:induction false} ServesFromHead(s: State, errors: nat -> bool) returns (q: State)
    requires AtHead(s)
    ensures Gets(s, q) && Resting(q, WaitRequest) && !q.waiting && AnsweredWith(s, q, errors)
    decreases |s.sent| - |s.answered|
  {
    HeadWork(s);
    if s.reqCons == s.goal {
      q := EndsAsleep(s);
    } else {
      var p := Turn(s, errors(|s.answered|));
      q := ServesFromHead(p, errors);
      ErrorsKept(s, p, q, errors);
    }
  }

  lemma ErrorsKept(s: State, p: State, q: State, errors: nat -> bool)
    requires Inv(s) && s.thread == Draining && OneMore(s, p, errors(|s.answered|)) && AnsweredWith(p, q, errors)
    ensures AnsweredWith(s, q, errors)
  {
    assert p.errors[|s.answered|] == errors(|s.answered|);
  }

  lemma WaitMoves(s: State, next: Thread) returns (q: State)
    requires Resting(s, s.thread) && (s.thread == WaitRequest ==> s.waiting)
    requires (s.thread == WaitRequest && next == WaitPool) || (s.thread == WaitPool && next == Clearing)
          || (s.thread == Clearing && next == Snapshot) || (s.thread == Snapshot && next == Draining)
    ensures Resting(q, next) && SameRequests(s, q) && forall r | Gets(q, r) :: Gets(s, r)
    ensures (s.thread == Clearing ==> !q.waiting) && (s.thread == Snapshot ==> q.waiting == s.waiting)
    ensures s.thread == Snapshot ==> q.goal == q.reqProd
  {
    q := Moves(s, next);
    forall r | Gets(q, r)
      ensures Gets(s, r)
    {
      GetsFirst(s, GO, r);
    }
  }

  lemma ReachesHead(s: State) returns (q: State)
    requires Resting(s, WaitRequest) && s.waiting
    ensures AtHead(q) && SameRequests(s, q) && forall r | Gets(q, r) :: Gets(s, r)
  {
    q := WaitMoves(s, WaitPool);
    q := WaitMoves(q, Clearing);
    q := WaitMoves(q, Snapshot);
    q := WaitMoves(q, Draining);
  }

  /** Woken with nobody interfering, the thread answers every request published and goes back to sleep. */
  lemma ServesAndSleeps(s: State, errors: nat -> bool) returns (q: State)
    requires Reachable(s) && s.thread == WaitRequest && s.waiting && s.front == Quiet && !s.event && !s.stop
    ensures Gets(s, q) && SleepsQuietly(q) && AnsweredWith(s, q, errors)
  {
    ReachableInv(s);
    var p := ReachesHead(s);
    q := ServesFromHead(p, errors);
  }

  // ----- stopping -----

  lemma StopGoes(s: State) returns (q: State)
    requires Inv(s) && s.stop && s.thread != Exited
    ensures Enabled(s, GO) && q == Apply(s, GO) && Inv(q) && q.stop
    ensures s.thread == Top ==> q.thread == Exited
    ensures s.thread == MoreToDo ==> q.thread == Top
    ensures s.thread == Draining ==> q.thread == FirstCheck || q.thread == MoreToDo
    ensures s.thread == Draining && s.goal != s.reqCons ==> q.thread == MoreToDo
    ensures s.thread == WaitRequest ==> q.thread == WaitPool
    ensures s.thread == WaitPool ==> q.thread == Clearing
    ensures s.thread == Clearing ==> q.thread == Snapshot
    ensures s.thread == Snapshot ==> q.thread == Draining && q.goal == q.reqProd
    ensures s.thread == Serving ==> q.thread == Responding
    ensures s.thread == Responding ==> q.thread == Draining
    ensures s.thread == Arming ==> q.thread == SecondCheck
    ensures s.thread == FirstCheck ==> q.thread == (if Work(s) != 0 then Snapshot else Arming)
    ensures s.thread == SecondCheck ==> q.thread == (if Work(s) != 0 then Snapshot else Top)
    ensures q.reqProd == s.reqProd
    ensures q.reqCons == s.reqCons
  {
    if s.thread == Draining {
      LockStep(s);
    }
    StepKeepsInv(s, GO);
    q := Apply(s, GO);
  }

  /** Where nothing is left to consume the checks find nothing either. */
  lemma NothingLeft(s: State)
    requires Inv(s) && s.reqCons == s.reqProd && (s.thread == FirstCheck || s.thread == SecondCheck)
    ensures Work(s) == 0
  {
    WorkLeft(s);
    WrapInjective(|s.answered|, |s.sent|);
  }

  /** How many more steps a stopped thread takes at most. */
  function StepsLeft(s: State): nat
  {
    match s.thread
    case Exited => 0
    case Top => 1
    case MoreToDo => 2
    case SecondCheck => if s.reqCons == s.reqProd then 2 else 13
    case Arming => if s.reqCons == s.reqProd then 3 else 14
    case FirstCheck => if s.reqCons == s.reqProd then 4 else 15
    case Draining => if s.goal == s.reqProd then 10 else 16
    case Snapshot => 11
    case Clearing => 12
    case WaitPool => 17
    case WaitRequest => 18
    case Responding => 19
    case Serving => 20
  }

  lemma StopNearer(s: State) returns (q: State)
    requires Inv(s) && s.stop && s.thread != Exited
    ensures Enabled(s, GO) && q == Apply(s, GO) && Inv(q) && q.stop && StepsLeft(q) < StepsLeft(s)
  {
    q := StopGoes(s);
    if (s.thread == FirstCheck || s.thread == SecondCheck) && s.reqCons == s.reqProd {
      NothingLeft(s);
    } else if s.thread == Draining && s.goal == s.reqProd {
      assert q.thread == FirstCheck ==> s.reqCons == s.goal && q.reqCons == q.reqProd;
    }
  }

  /** Told to stop, the thread leaves its outer loop, within twenty steps of its own. */
  lemma {:induction false} StopEnds(s: State) returns (q: State)
    requires Inv(s) && s.stop
    ensures Gets(s, q) && q.thread == Exited
    decreases StepsLeft(s)
  {
    if s.thread == Exited {
      q := s;
      GetsNowhere(s);
    } else {
      var p := StopNearer(s);
      q := StopEnds(p);
      GetsFirst(s, GO, q);
    }
  }

  /** Whenever it is told to. */
  lemma StopTakesEffect(s: State) returns (q: State)
    requires Reachable(s)
    ensures Enabled(s, Stop) && Gets(Apply(s, Stop), q) && q.thread == Exited
  {
    ReachableInv(s);
    StepKeepsInv(s, Stop);
    q := StopEnds(Apply(s, Stop));
  }

  /** And only a stop makes it leave. */
  lemma {:induction false} OnlyStopEnds(s: State, steps: seq<Step>)
    requires ValidRun(s, steps) && s.thread != Exited && !s.stop && Stop !in steps
    ensures Run(s, steps).thread != Exited && !Run(s, steps).stop
    decreases |steps|
  {
    if steps != [] {
      assert steps[0] in steps && steps == [steps[0]] + steps[1..];
      OnlyStopEnds(Apply(s, steps[0]), steps[1..]);
    }
  }

  // ----- sleeping -----

  lemma AsleepStays(s: State, step: Step)
    requires Enabled(s, step) && s.thread == WaitRequest && !s.waiting && !s.stop
    requires step != Interrupt && step != Stop
    ensures Apply(s, step).thread == WaitRequest && !Apply(s, step).waiting && !Apply(s, step).stop
  {
  }

  /** A thread asleep takes no step until an event interrupt or a stop. */
  lemma {:induction false} SleepsUntilEvent(s: State, steps: seq<Step>)
    requires ValidRun(s, steps) && s.thread == WaitRequest && !s.waiting && !s.stop
    requires Interrupt !in steps && Stop !in steps
    ensures Run(s, steps).thread == WaitRequest && forall step | step in steps :: !step.Advance?
    decreases |steps|
  {
    if steps != [] {
      assert steps[0] in steps && steps == [steps[0]] + steps[1..];
      AsleepStays(s, steps[0]);
      SleepsUntilEvent(Apply(s, steps[0]), steps[1..]);
    }
  }

  /** And an event interrupt wakes it. */
  lemma EventWakes(s: State)
    requires s.event && RingSize(s.size) && |s.slots| == s.size && s.thread == WaitRequest
    ensures Enabled(s, Interrupt) && Enabled(Apply(s, Interrupt), GO) && !Apply(s, Interrupt).event
  {
  }

  // ----- the frontend -----

  /** The frontend can publish whatever fits the ring, and read whatever is answered. */
  lemma FrontendCan(s: State, requests: seq<Slot>)
    requires Reachable(s)
    ensures s.front == Quiet && requests != [] ==>
      (Enabled(s, Publish(requests)) <==> |s.sent| + |requests| <= |s.received| + s.size)
    ensures Enabled(s, Receive) <==> |s.received| < |s.answered|
  {
    ReachableInv(s);
    MinusExact(|s.sent|, |s.received|);
    if s.rspCons == s.rspProd {
      WrapInjective(|s.received|, |s.answered|);
    }
  }
}
