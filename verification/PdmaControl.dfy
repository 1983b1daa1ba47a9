/**
 The control ioctls and the calls of pdma-v1.1-src/pdma-dev.c as their callers see them: where a stop ends and where a
 start goes on, and when a read or write gets a block, sleeps or returns.
 */
module PdmaControl {
  import opened PdmaLists
  import opened PdmaProtocol
  import opened PdmaInvariants
  import opened PdmaTheorems

  // ----- stop and start -----

  /** No ioctl, or a plain STOP. */
  predicate NoStart(c: Control)
  {
    c == NoControl || c == Resetting(false) || c == Polling(false)
  }

  /** A START before its lists are initialised. */
  predicate BeforeLists(c: Control)
  {
    c == Resetting(true) || c == Polling(true) || c == Starting
  }

  lemma StopStepEnds(s: State, step: Step)
    requires Legal(s, step) && NoStart(s.control) && step != StartBegin
    ensures step != InitLists && NoStart(Apply(s, step).control)
    ensures !s.enable ==> !Apply(s, step).enable
  {
  }

  /** A STOP ends there: until another START the lists are not initialised, and DMA that is off stays off. */
  lemma {:induction false} StopEndsThere(s: State, steps: seq<Step>)
    requires ValidRun(s, steps) && NoStart(s.control) && StartBegin !in steps
    ensures InitLists !in steps && NoStart(Run(s, steps).control)
    ensures !s.enable ==> !Run(s, steps).enable
    decreases |steps|
  {
    if steps != [] {
      assert steps[0] in steps && steps == [steps[0]] + steps[1..];
      StopStepEnds(s, steps[0]);
      StopEndsThere(Apply(s, steps[0]), steps[1..]);
    }
  }

  /** A START goes on to the lists, whatever the stop inside it returns. */
  lemma {:induction false} StartGoesOn(s: State, steps: seq<Step>)
    requires ValidRun(s, steps) && BeforeLists(s.control) && InitLists !in steps
    ensures BeforeLists(Run(s, steps).control) && StartBegin !in steps && StopBegin !in steps
    decreases |steps|
  {
    if steps != [] {
      assert steps[0] in steps && steps == [steps[0]] + steps[1..];
      StartGoesOn(Apply(s, steps[0]), steps[1..]);
    }
  }

  /** The control steps of a stop. */
  predicate StopStep(step: Step)
  {
    step.ResetDone? || step == Poll || step == PollTimeout
  }

  /**
   A stop clears dma_enable, polls only after a reset that worked, ends when it reads zero or gives up, and then returns
   to its caller: out of the ioctl, or into the START that made it. It has succeeded exactly if it read zero.
   */
  lemma StopOutcome(s: State, step: Step, start: bool)
    requires Legal(s, step) && (s.control == Resetting(start) || s.control == Polling(start))
    ensures var q, done := Apply(s, step), if start then Starting else NoControl;
      && (!StopStep(step) ==> q.control == s.control)
      && (step.ResetDone? ==> q.control == if step.ok then Polling(start) else done)
      && (step == Poll ==> q.control == if s.rwCnt == 0 then done else s.control)
      && (step == PollTimeout ==> s.rwCnt != 0 && q.control == done)
      && (q.quiet <==> s.quiet || (step == Poll && s.rwCnt == 0))
  {
  }

  /** A STOP, or a START while DMA is on, begins a stop; a START while DMA is off needs none. */
  lemma IoctlBegins(s: State, start: bool)
    requires s.control == NoControl
    ensures var q := Apply(s, if start then StartBegin else StopBegin);
      && !q.enable
      && (s.enable || !start ==> q.control == Resetting(start))
      && (!s.enable && start ==> q.control == Starting)
  {
  }

  lemma {:induction false} ResetAwaited(s: State, steps: seq<Step>, start: bool)
    requires ValidRun(s, steps) && s.control == Resetting(start)
    requires forall ok :: ResetDone(ok) !in steps
    ensures Run(s, steps).control == Resetting(start)
    decreases |steps|
  {
    if steps != [] {
      assert steps[0] in steps && steps == [steps[0]] + steps[1..];
      StopOutcome(s, steps[0], start);
      ResetAwaited(Apply(s, steps[0]), steps[1..], start);
    }
  }

  /** A START while DMA is on never reaches the lists without a reset of the device. */
  lemma StartResetsFirst(s: State, steps: seq<Step>)
    requires s.control == NoControl && s.enable && ValidRun(Apply(s, StartBegin), steps)
    requires Run(Apply(s, StartBegin), steps).control == Starting
    ensures ResetDone(true) in steps || ResetDone(false) in steps
  {
    if ResetDone(true) !in steps && ResetDone(false) !in steps {
      forall ok
        ensures ResetDone(ok) !in steps
      {
      }
      ResetAwaited(Apply(s, StartBegin), steps, true);
    }
  }

  /** After the lists DMA is on until the START has submitted reads and is over. */
  lemma StartEnds(s: State, step: Step)
    requires Reachable(s) && s.control == Started && Legal(s, step)
    ensures Apply(s, step).control == if step == StartRefill then NoControl else Started
    ensures Apply(s, step).enable == s.enable
  {
  }

  // ----- calls -----

  function ListFor(s: State, op: Op): seq<Block>
  {
    if op == Read then s.rd.pending else s.wt.free
  }

  predicate HasBlock(s: State, t: nat, op: Op, b: Block)
  {
    t < |s.threads| && s.threads[t] == if op == Read then RdHeld(b) else WtHeld(b)
  }

  /** The call has the head of its list, which is taken off. */
  predicate Gets(s: State, q: State, t: nat, op: Op)
  {
    ListFor(s, op) != [] && HasBlock(q, t, op, ListFor(s, op)[0]) && ListFor(q, op) == ListFor(s, op)[1..]
  }

  predicate Comes(s: State, q: State, t: nat, pc: Pc)
  {
    t < |q.threads| && q.threads[t] == pc && q.rd == s.rd && q.wt == s.wt
  }

  /** A call goes past its tests exactly if DMA is on and the size is right. */
  lemma CheckOutcome(s: State, t: nat, sizeOk: bool)
    requires Enabled(s, Check(t, sizeOk))
    ensures var q := Apply(s, Check(t, sizeOk));
      if s.enable && sizeOk then Comes(s, q, t, Checked(s.threads[t].op)) else Comes(s, q, t, Leaving)
  {
  }

  /** With something on its list a call gets the head of it; with nothing it sleeps, or returns if it must not block. */
  lemma TryOutcome(s: State, t: nat, nonblock: bool)
    requires Enabled(s, Try(t, nonblock))
    ensures var q, op := Apply(s, Try(t, nonblock)), s.threads[t].op;
      && (ListFor(s, op) != [] ==> Gets(s, q, t, op))
      && (ListFor(s, op) == [] && nonblock ==> Comes(s, q, t, Leaving))
      && (ListFor(s, op) == [] && !nonblock ==> Comes(s, q, t, Waiting(op)))
  {
  }

  /** A signal or a stop ends a sleeping call with nothing; otherwise it gets the head of its list or sleeps again. */
  lemma WakeOutcome(s: State, t: nat, signalled: bool)
    requires Enabled(s, Wake(t, signalled))
    ensures var q, op := Apply(s, Wake(t, signalled)), s.threads[t].op;
      && (signalled || !s.enable ==> Comes(s, q, t, Leaving))
      && (!signalled && s.enable && ListFor(s, op) != [] ==> Gets(s, q, t, op))
      && (!signalled && s.enable && ListFor(s, op) == [] ==> Comes(s, q, t, Waiting(op)))
  {
  }

  /** A caller that asks not to block is never asleep. */
  lemma {:induction false} NonblockingNeverSleeps(s: State, steps: seq<Step>, t: nat)
    requires ValidRun(s, steps) && t < |s.threads| && !s.threads[t].Waiting? && Try(t, false) !in steps
    ensures t < |Run(s, steps).threads| && !Run(s, steps).threads[t].Waiting?
    decreases |steps|
  {
    if steps != [] {
      assert steps[0] in steps && steps == [steps[0]] + steps[1..];
      StepMovesOne(s, steps[0]);
      StaysAwake(s, steps[0], t);
      NonblockingNeverSleeps(Apply(s, steps[0]), steps[1..], t);
    }
  }

  lemma StaysAwake(s: State, step: Step, t: nat)
    requires Enabled(s, step) && t < |s.threads| && !s.threads[t].Waiting? && step != Try(t, false)
    ensures t < |Apply(s, step).threads| && !Apply(s, step).threads[t].Waiting?
  {
    StepMovesOne(s, step);
    if step.Try? && step.t == t {
      TryOutcome(s, t, step.nonblock);
    }
  }

  /** What a copy and the critical section after it come to: the block is handed on, put back, or dropped. */
  lemma CopyOutcome(s: State, step: Step)
    requires Enabled(s, step) && (step.CopyOut? || step.CopyIn?)
    ensures var q, b := Apply(s, step), s.threads[step.t].block;
      && step.t < |q.threads| && q.rd == s.rd && q.wt == s.wt
      && (step.CopyOut? ==> q.threads[step.t] == if step.ok then RdCopied(b) else RdFailed(b))
      && (step.CopyIn? ==> q.threads[step.t] == if step.ok then WtFilled(b) else WtFailed(b))
  {
  }

  /** No call is ever stuck, and both outcomes of every test, copy and sleep are possible. */
  lemma CallsCanMove(s: State, t: nat, yes: bool, op: Op, data: Payload)
    requires t < |s.threads|
    ensures match s.threads[t]
      case Idle => Legal(s, Enter(t, op))
      case Entered(_) => Legal(s, Check(t, yes))
      case Checked(_) => Legal(s, Try(t, yes))
      case Waiting(_) => Legal(s, Wake(t, yes))
      case RdHeld(_) => Legal(s, CopyOut(t, yes))
      case WtHeld(_) => Legal(s, CopyIn(t, yes, data))
      case RdRefilling => Legal(s, Refill(t))
      case Leaving => Legal(s, Leave(t))
      case _ => Legal(s, Finish(t))
  {
  }

  /** A call enters with its own operation and comes out idle, counted while it is inside. */
  lemma CallCounted(s: State, t: nat, op: Op)
    requires t < |s.threads|
    ensures s.threads[t] == Idle ==>
      var q := Apply(s, Enter(t, op)); q.rwCnt == s.rwCnt + 1 && q.threads == s.threads[t := Entered(op)]
    ensures s.threads[t] == Leaving ==>
      var q := Apply(s, Leave(t)); q.rwCnt == s.rwCnt - 1 && q.threads == s.threads[t := Idle]
  {
  }
}
