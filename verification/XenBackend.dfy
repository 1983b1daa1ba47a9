/**
 One frontend, its shared ring and the service thread of the back end
 (ire/backup_con/dom0_141223_blocksz/data.c), as a step machine. A step is one access to a shared index,
 the wait flag or a ring slot; pushes, event interrupts, a stop request and the service thread interleave
 freely between steps.
 */
module XenBackend {
  import opened Words
  import opened XenRing

  /** Requests and responses have the same layout and share the ring's memory. */
  datatype Slot = Slot(id: Word, operation: Word, status: Word)

  const OP_OPEN: Word := 0
  const OP_WRITE: Word := 2
  const OP_IOCTL: Word := 3
  const OP_CLOSE: Word := 4

  /** Where the service thread is. */
  datatype Thread =
    | Top                   // testing the stop flag of its outer loop
    | WaitRequest           // waiting for waiting_reqs
    | WaitPool              // waiting for a free pending_req
    | Clearing              // about to clear waiting_reqs
    | Snapshot              // about to read req_prod
    | Draining              // at the head of the service loop
    | Serving               // request consumed, about to be executed
    | Responding            // executed, about to make the response
    | FirstCheck            // RING_FINAL_CHECK_FOR_REQUESTS, first test
    | Arming                // about to write req_event
    | SecondCheck           // second test
    | MoreToDo              // about to set waiting_reqs
    | Exited

  /** Where the frontend is between publishing n requests and its notification test. */
  datatype Front = Quiet | Published(before: Word, n: nat)

  datatype State = State(
    size: nat,
    slots: seq<Slot>, reqProd: Word, rspProd: Word, reqEvent: Word,     // the shared page
    reqCons: Word, rspPvt: Word, goal: Word,                            // the back end's indices
    thread: Thread, waiting: bool, stop: bool,
    front: Front, rspCons: Word, event: bool,                           // frontend and pending interrupt
    sent: seq<Slot>,        // every request published
    errors: seq<bool>,      // of every request executed, what the device answers if it is asked
    outcomes: seq<bool>,    // and whether the request failed
    answered: seq<Slot>,    // every response made
    received: seq<Slot>)    // every response the frontend read

  datatype Step =
    | Publish(requests: seq<Slot>)
    | TestEvent
    | Receive
    | Interrupt
    | Stop
    | Advance(pooled: bool, error: bool)   // the service thread

  /** Whether executing an operation fails; only an ioctl depends on the device. */
  function Fails(operation: Word, error: bool): bool
  {
    if operation == OP_OPEN || operation == OP_WRITE || operation == OP_CLOSE then false
    else if operation == OP_IOCTL then error
    else true
  }

  /** A failure takes one off the status of the request, in place. */
  function Executed(request: Slot, failed: bool): Slot
  {
    if failed then request.(status := Dec(request.status)) else request
  }

  /** make_response copies id and operation and adds one to the status. */
  function Response(executed: Slot): Slot
  {
    executed.(status := Inc(executed.status))
  }

  function Fill(slots: seq<Slot>, i: Word, requests: seq<Slot>): (r: seq<Slot>)
    requires |slots| > 0
    ensures |r| == |slots|
    decreases |requests|
  {
    if requests == [] then slots
    else Fill(slots[SlotOf(i, |slots|) := requests[0]], Inc(i), requests[1..])
  }

  predicate Enabled(s: State, step: Step)
  {
    && RingSize(s.size) && |s.slots| == s.size
    && match step
       case Publish(requests) =>
         s.front == Quiet && requests != [] && |requests| <= s.size - Minus(s.reqProd, s.rspCons)
       case TestEvent => s.front.Published?
       case Receive => s.rspCons != s.rspProd
       case Interrupt => s.event
       case Stop => true
       case Advance(_, _) => s.thread != Exited && (s.thread == WaitRequest ==> s.waiting || s.stop)
  }

  function Consume(s: State, pooled: bool): State
  {
    if s.reqCons == s.goal || Overflow(s.reqCons, s.rspPvt, s.size) then s.(thread := FirstCheck)
    else if s.stop || !pooled then s.(thread := MoreToDo)
    else s.(reqCons := Inc(s.reqCons), thread := Serving)
  }

  /** The slot of the request just consumed. */
  function Current(s: State): nat
    requires s.size > 0
  {
    SlotOf(Dec(s.reqCons), s.size)
  }

  function Execute(s: State, error: bool): State
    requires RingSize(s.size) && |s.slots| == s.size
  {
    var request := s.slots[Current(s)];
    var failed := Fails(request.operation, error);
    s.(slots := s.slots[Current(s) := Executed(request, failed)],
       errors := s.errors + [error], outcomes := s.outcomes + [failed], thread := Responding)
  }

  function Respond(s: State): State
    requires RingSize(s.size) && |s.slots| == s.size
  {
    var response := Response(s.slots[Current(s)]);
    var rsp := Inc(s.rspPvt);
    s.(slots := s.slots[SlotOf(s.rspPvt, s.size) := response], rspPvt := rsp, rspProd := rsp,
       answered := s.answered + [response], thread := Draining)
  }

  function Work(s: State): Word
    requires RingSize(s.size)
  {
    Unconsumed(s.reqProd, s.reqCons, s.rspPvt, s.size)
  }

  function Arm(s: State): State
  {
    s.(reqEvent := Inc(s.reqCons), thread := SecondCheck)
  }

  function AdvanceThread(s: State, pooled: bool, error: bool): State
    requires RingSize(s.size) && |s.slots| == s.size
  {
    match s.thread
    case Top => s.(thread := if s.stop then Exited else WaitRequest)
    case WaitRequest => s.(thread := WaitPool)
    case WaitPool => s.(thread := Clearing)
    case Clearing => s.(waiting := false, thread := Snapshot)
    case Snapshot => s.(goal := s.reqProd, thread := Draining)
    case Draining => Consume(s, pooled)
    case Serving => Execute(s, error)
    case Responding => Respond(s)
    case FirstCheck => s.(thread := if Work(s) != 0 then Snapshot else Arming)
    case Arming => Arm(s)
    case SecondCheck => s.(thread := if Work(s) != 0 then Snapshot else Top)
    case MoreToDo => s.(waiting := true, thread := Top)
    case Exited => s
  }

  function PublishRequests(s: State, requests: seq<Slot>): State
    requires |s.slots| > 0
  {
    s.(slots := Fill(s.slots, s.reqProd, requests), reqProd := Wrap(s.reqProd + |requests|),
       front := Published(s.reqProd, |requests|), sent := s.sent + requests)
  }

  function ReceiveResponse(s: State): State
    requires 0 < s.size == |s.slots|
  {
    s.(received := s.received + [s.slots[SlotOf(s.rspCons, s.size)]], rspCons := Inc(s.rspCons))
  }

  function Apply(s: State, step: Step): State
    requires Enabled(s, step)
  {
    match step
    case Publish(requests) => PublishRequests(s, requests)
    case TestEvent =>
      s.(event := s.event || MustNotify(s.front.before, s.reqProd, s.reqEvent), front := Quiet)
    case Receive => ReceiveResponse(s)
    case Interrupt => s.(event := false, waiting := true)
    case Stop => s.(stop := true)
    case Advance(pooled, error) => AdvanceThread(s, pooled, error)
  }

  /** A shared ring just initialised, with whatever its slots hold. */
  predicate Initial(s: State)
  {
    && RingSize(s.size) && |s.slots| == s.size
    && s.reqProd == s.rspProd == s.reqCons == s.rspPvt == s.rspCons == 0 && s.reqEvent == 1
    && s.thread == Top && !s.waiting && !s.stop && s.front == Quiet && !s.event
    && s.sent == s.answered == s.received == [] && s.errors == s.outcomes == []
  }

  predicate ValidRun(s: State, steps: seq<Step>)
    decreases |steps|
  {
    steps == [] || (Enabled(s, steps[0]) && ValidRun(Apply(s, steps[0]), steps[1..]))
  }

  function Run(s: State, steps: seq<Step>): State
    requires ValidRun(s, steps)
    decreases |steps|
  {
    if steps == [] then s else Run(Apply(s, steps[0]), steps[1..])
  }

  // ----- invariant -----

  /** Requests consumed: those answered and the one in service. */
  function Consumed(s: State): nat
  {
    |s.answered| + if s.thread == Serving || s.thread == Responding then 1 else 0
  }

  predicate Indices(s: State)
  {
    && RingSize(s.size) && |s.slots| == s.size
    && s.reqProd == Wrap(|s.sent|) && s.reqCons == Wrap(Consumed(s))
    && s.rspPvt == s.rspProd == Wrap(|s.answered|) && s.rspCons == Wrap(|s.received|)
    && |s.received| <= |s.answered| && Consumed(s) <= |s.sent| <= |s.received| + s.size
    && (s.front.Published? ==>
          0 < s.front.n <= |s.sent| && s.front.n <= s.size && s.front.before == Wrap(|s.sent| - s.front.n))
  }

  /** The loop bound read from req_prod lies between what is consumed and what is published. */
  predicate GoalReached(s: State)
  {
    (s.thread == Draining || s.thread == Serving || s.thread == Responding) ==>
      exists g :: Consumed(s) <= g <= |s.sent| && s.goal == Wrap(g)
  }

  /** What the ring memory holds: unread responses, the request in service, unconsumed requests. */
  ghost predicate Memory(s: State)
    requires Indices(s)
  {
    && (forall k | |s.received| <= k < |s.answered| :: s.slots[SlotOf(k, s.size)] == s.answered[k])
    && (forall k | Consumed(s) <= k < |s.sent| :: s.slots[SlotOf(k, s.size)] == s.sent[k])
    && (s.thread == Serving ==> s.slots[SlotOf(|s.answered|, s.size)] == s.sent[|s.answered|])
    && (s.thread == Responding ==>
          |s.outcomes| == Consumed(s)
          && s.slots[SlotOf(|s.answered|, s.size)] == Executed(s.sent[|s.answered|], s.outcomes[|s.answered|]))
  }

  /** One response per executed request, in order, with its id and operation, and a status one higher on success. */
  ghost predicate Answers(s: State)
  {
    && |s.outcomes| == |s.answered| + (if s.thread == Responding then 1 else 0)
    && |s.errors| == |s.outcomes| <= |s.sent|
    && (forall k | 0 <= k < |s.answered| :: s.answered[k] == Response(Executed(s.sent[k], s.outcomes[k])))
    && (forall k | 0 <= k < |s.outcomes| :: FailsAs(s.sent[k].operation, s.errors[k], s.outcomes[k]))
    && s.received <= s.answered
  }

  /** Open, write and close never fail, an ioctl as the device says, anything else always. */
  predicate FailsAs(operation: Word, error: bool, failed: bool)
  {
    && (operation in {OP_OPEN, OP_WRITE, OP_CLOSE} ==> !failed)
    && (operation == OP_IOCTL ==> failed == error)
    && (operation !in {OP_OPEN, OP_WRITE, OP_IOCTL, OP_CLOSE} ==> failed)
  }

  /** Every request published is consumed and the event index is set so that the next one notifies. */
  predicate Armed(s: State)
  {
    s.reqEvent == Wrap(Consumed(s) + 1)
  }

  predicate Awake(s: State)
  {
    && (s.thread == SecondCheck ==> Armed(s))
    && ((s.thread == Top || s.thread == WaitRequest) && !s.waiting && !s.event ==>
          Armed(s) && (Consumed(s) == |s.sent| || (s.front.Published? && Consumed(s) == |s.sent| - s.front.n)))
  }

  ghost predicate Inv(s: State)
  {
    Indices(s) && GoalReached(s) && Memory(s) && Answers(s) && Awake(s)
  }
}
