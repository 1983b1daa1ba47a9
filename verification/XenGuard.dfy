/**
 The back end against a frontend of which nothing is assumed (ire/backup_con/dom0_141223_blocksz/data.c): between any
 two steps of the service thread the whole shared page may change.
 */
module XenGuard {
  import opened Words
  import opened XenRing
  import opened XenBackend
  import opened XenPromises

  datatype AnyStep =
    | Thread(pooled: bool, error: bool)   // the service thread
    | Notify                              // an event interrupt, due or not
    | StopThread
    | Overwrite(slots: seq<Slot>, reqProd: Word, rspProd: Word, reqEvent: Word)

  predicate Shaped(s: State)
  {
    RingSize(s.size) && |s.slots| == s.size
  }

  predicate May(s: State, step: AnyStep)
  {
    match step
    case Thread(_, _) => s.thread != Exited && (s.thread == WaitRequest ==> s.waiting || s.stop)
    case Overwrite(slots, _, _, _) => |slots| == s.size
    case _ => true
  }

  function Take(s: State, step: AnyStep): State
    requires Shaped(s)
  {
    match step
    case Thread(pooled, error) => AdvanceThread(s, pooled, error)
    case Notify => s.(waiting := true)
    case StopThread => s.(stop := true)
    case Overwrite(slots, reqProd, rspProd, reqEvent) =>
      s.(slots := slots, reqProd := reqProd, rspProd := rspProd, reqEvent := reqEvent)
  }

  /** The thread's own indices: one request apart while it is being served, equal otherwise. */
  predicate InStep(s: State)
  {
    if InService(s.thread) then s.reqCons == Inc(s.rspPvt) else s.reqCons == s.rspPvt
  }

  lemma ThreadKeepsShape(s: State, pooled: bool, error: bool)
    requires Shaped(s)
    ensures Shaped(AdvanceThread(s, pooled, error))
  {
    match s.thread
    case Draining => assert Consume(s, pooled).size == s.size && Consume(s, pooled).slots == s.slots;
    case Serving => assert Execute(s, error).size == s.size && |Execute(s, error).slots| == |s.slots|;
    case Responding => assert Respond(s).size == s.size && |Respond(s).slots| == |s.slots|;
    case _ =>
  }

  lemma ThreadKeepsInStep(s: State, pooled: bool, error: bool)
    requires Shaped(s) && InStep(s)
    ensures Shaped(AdvanceThread(s, pooled, error)) && InStep(AdvanceThread(s, pooled, error))
  {
    ThreadKeepsShape(s, pooled, error);
  }

  lemma TakeKeepsInStep(s: State, step: AnyStep)
    requires Shaped(s) && InStep(s) && May(s, step)
    ensures Shaped(Take(s, step)) && InStep(Take(s, step))
  {
    if step.Thread? {
      ThreadKeepsInStep(s, step.pooled, step.error);
    }
  }

  /** The states some frontend can bring about. */
  ghost predicate Arises(s0: State, steps: seq<AnyStep>, s: State)
    decreases |steps|
  {
    if steps == [] then s == s0
    else Shaped(s0) && May(s0, steps[0]) && Arises(Take(s0, steps[0]), steps[1..], s)
  }

  lemma {:induction false} ArisesInStep(s0: State, steps: seq<AnyStep>, s: State)
    requires Shaped(s0) && InStep(s0) && Arises(s0, steps, s)
    ensures Shaped(s) && InStep(s)
    decreases |steps|
  {
    if steps != [] {
      TakeKeepsInStep(s0, steps[0]);
      ArisesInStep(Take(s0, steps[0]), steps[1..], s);
    }
  }

  /** Whatever any frontend writes, at every loop head responses have caught up and the guard is false. */
  lemma GuardIsDead(s0: State, steps: seq<AnyStep>, s: State)
    requires Initial(s0) && Arises(s0, steps, s) && s.thread == Draining
    ensures s.rspPvt == s.reqCons && !Overflow(s.reqCons, s.rspPvt, s.size)
  {
    ArisesInStep(s0, steps, s);
  }

  /** So the loop goes on until it has reached the req_prod it read, and only a stop or an empty pool ends it sooner. */
  lemma OnlyTheGoalEndsThePass(s0: State, steps: seq<AnyStep>, s: State, pooled: bool)
    requires Initial(s0) && Arises(s0, steps, s) && s.thread == Draining
    ensures Consume(s, pooled).thread == FirstCheck <==> s.reqCons == s.goal
    ensures Consume(s, pooled).thread == Serving <==> s.reqCons != s.goal && !s.stop && pooled
  {
    GuardIsDead(s0, steps, s);
  }

  function Go(s: State, error: bool): (q: State)
    requires Shaped(s)
    ensures Shaped(q)
  {
    ThreadKeepsShape(s, true, error);
    AdvanceThread(s, true, error)
  }

  /** One turn of the loop: consume, execute, respond. */
  function Turn(s: State, error: bool): State
    requires Shaped(s)
  {
    Go(Go(Go(s, error), error), error)
  }

  predicate AtHead(s: State)
  {
    Shaped(s) && InStep(s) && s.thread == Draining && !s.stop
  }

  lemma TurnServesOne(s: State, error: bool)
    requires AtHead(s) && s.reqCons != s.goal
    ensures var q := Turn(s, error);
      && AtHead(q) && q.goal == s.goal && q.size == s.size
      && q.reqCons == Inc(s.reqCons) && |q.answered| == |s.answered| + 1
  {
    assert Go(s, error).thread == Serving;
    assert Go(Go(s, error), error).thread == Responding;
  }

  function Turns(s: State, errors: nat -> bool, n: nat): (q: State)
    requires AtHead(s) && n <= Minus(s.goal, s.reqCons)
    ensures AtHead(q) && q.goal == s.goal && q.size == s.size && |q.answered| == |s.answered| + n
    ensures Minus(q.goal, q.reqCons) == Minus(s.goal, s.reqCons) - n
  {
    if n == 0 then s
    else
      var p := Turns(s, errors, n - 1);
      TurnServesOne(p, errors(n - 1));
      Turn(p, errors(n - 1))
  }

  /** A pass answers every request up to the req_prod it read, be it more than the ring has slots for. */
  lemma PassIgnoresRingSize(s: State, errors: nat -> bool)
    requires AtHead(s)
    ensures var n := Minus(s.goal, s.reqCons);
      var q := Turns(s, errors, n);
      q.reqCons == q.goal && |q.answered| == |s.answered| + n
  {
  }

  predicate Ready(s: State, thread: Thread)
  {
    Shaped(s) && InStep(s) && !s.stop && s.thread == thread
  }

  predicate SameOffer(s: State, q: State)
  {
    q.reqProd == s.reqProd && q.reqCons == s.reqCons
  }

  const GO := Thread(true, false)

  lemma FromSnapshot(s: State)
    requires Ready(s, Snapshot)
    ensures var q := Take(s, GO);
      Arises(s, [GO], q) && AtHead(q) && q.goal == s.reqProd && q.reqCons == s.reqCons
  {
    assert Arises(Take(s, GO), [], Take(s, GO));
    Prepend(s, GO, [], Take(s, GO));
  }

  /** The steps that only move the thread towards its reading of req_prod. */
  lemma GoesOn(s: State, next: Thread)
    requires Ready(s, Top) || Ready(s, WaitPool) || Ready(s, Clearing) || (Ready(s, WaitRequest) && s.waiting)
    requires next ==
      match s.thread case Top => WaitRequest case WaitRequest => WaitPool case WaitPool => Clearing case _ => Snapshot
    ensures May(s, GO) && Ready(Take(s, GO), next) && SameOffer(s, Take(s, GO))
    ensures s.thread == Top ==> Take(s, GO).waiting == s.waiting
  {
  }

  lemma FromPool(s: State) returns (q: State)
    requires Ready(s, WaitPool)
    ensures Arises(s, [GO, GO, GO], q) && AtHead(q) && q.goal == s.reqProd && q.reqCons == s.reqCons
  {
    GoesOn(s, Clearing);
    var s1 := Take(s, GO);
    GoesOn(s1, Snapshot);
    var s2 := Take(s1, GO);
    FromSnapshot(s2);
    q := Take(s2, GO);
    Prepend(s1, GO, [GO], q);
    Prepend(s, GO, [GO, GO], q);
  }

  lemma FromTopToLoop(s: State) returns (steps: seq<AnyStep>, q: State)
    requires Ready(s, Top)
    ensures Arises(s, steps, q) && AtHead(q) && q.goal == s.reqProd && q.reqCons == s.reqCons
  {
    var s1 := Take(s, Notify);
    GoesOn(s1, WaitRequest);
    var s2 := Take(s1, GO);
    GoesOn(s2, WaitPool);
    var s3 := Take(s2, GO);
    q := FromPool(s3);
    Prepend(s2, GO, [GO, GO, GO], q);
    Prepend(s1, GO, [GO, GO, GO, GO], q);
    Prepend(s, Notify, [GO, GO, GO, GO, GO], q);
    steps := [Notify, GO, GO, GO, GO, GO];
  }

  /** Such a pass is possible: a frontend that sets req_prod one behind req_cons is owed 2^32 - 1 responses. */
  lemma OverPublishing(s0: State)
    requires Initial(s0)
    ensures exists steps, s :: Arises(s0, steps, s) && AtHead(s) && Minus(s.goal, s.reqCons) == TWO32 - 1
  {
    var wild := Overwrite(s0.slots, TWO32 - 1, s0.rspProd, s0.reqEvent);
    var steps, s := FromTopToLoop(Take(s0, wild));
    Prepend(s0, wild, steps, s);
  }

  lemma Prepend(s: State, step: AnyStep, steps: seq<AnyStep>, q: State)
    requires Shaped(s) && May(s, step) && Arises(Take(s, step), steps, q)
    ensures Arises(s, [step] + steps, q)
  {
    assert ([step] + steps)[1..] == steps;
  }
}
