/**
 The PDMA driver as a step machine (pdma-v1.1-src/pdma-dev.c). A step is one critical section, one
 copy to or from user space, or one access to rw_cnt or dma_enable; threads, the completion interrupt
 and the control ioctls interleave freely between steps. Between its two critical sections a thread
 holds a block that is on no list.
 */
module PdmaProtocol {
  import opened PdmaLists

  type Payload = seq<bv8>

  datatype Op = Read | Write

  /** Where a thread is inside pdma_read or pdma_write. */
  datatype Pc =
    | Idle                      // outside the driver
    | Entered(op: Op)           // rw_cnt incremented
    | Checked(op: Op)           // passed the unlocked dma_enable test and the size test
    | Waiting(op: Op)           // asleep on the wait queue
    | RdHeld(block: Block)      // took a pending block, lock dropped
    | RdCopied(block: Block)    // copy_to_user succeeded
    | RdFailed(block: Block)    // copy_to_user failed
    | RdRefilling               // block released, about to submit reads
    | WtHeld(block: Block)      // took a free block, lock dropped
    | WtFilled(block: Block)    // copy_from_user succeeded
    | WtFailed(block: Block)    // copy_from_user failed
    | Leaving                   // about to decrement rw_cnt

  /** The one control ioctl in progress, if any; `start` tells a STOP made inside START. */
  datatype Control =
    | NoControl
    | Resetting(start: bool)    // dma_enable cleared, resetting the device
    | Polling(start: bool)      // waiting for rw_cnt to reach zero
    | Starting                  // about to initialise the lists
    | Started                   // lists initialised and DMA enabled, about to submit reads

  /** Payloads in the order they crossed each interface since the last start. */
  datatype History = History(
    completed: seq<Payload>,    // filled by the device for reading
    delivered: seq<Payload>,    // copied out to readers
    committed: seq<Payload>,    // accepted from writers
    retired: seq<Payload>)      // consumed by the device

  datatype State = State(
    enable: bool, rwCnt: int, rd: Side, wt: Side,
    rdNr: nat, wtNr: nat, rdMem: seq<Payload>, wtMem: seq<Payload>,
    threads: seq<Pc>, control: Control,
    quiet: bool,                // a stop since the last start returned 0, or DMA was never started
    orphans: seq<Block>,        // write blocks dropped by a commit that found DMA stopped
    past: History)

  datatype Step =
    | Enter(t: nat, op: Op)
    | Check(t: nat, sizeOk: bool)
    | Try(t: nat, nonblock: bool)
    | Wake(t: nat, signalled: bool)
    | CopyOut(t: nat, ok: bool)
    | CopyIn(t: nat, ok: bool, data: Payload)
    | Finish(t: nat)
    | Refill(t: nat)
    | Leave(t: nat)
    | Interrupt(rdData: seq<Payload>, wtCnt: nat)
    | StopBegin
    | ResetDone(ok: bool)
    | Poll
    | PollTimeout
    | StartBegin
    | InitLists
    | StartRefill

  /** The thread a step moves, if any. */
  function Mover(step: Step): (t: int)
  {
    match step
    case Enter(t, _) => t
    case Check(t, _) => t
    case Try(t, _) => t
    case Wake(t, _) => t
    case CopyOut(t, _) => t
    case CopyIn(t, _, _) => t
    case Finish(t) => t
    case Refill(t) => t
    case Leave(t) => t
    case _ => -1
  }

  const NO_HISTORY := History([], [], [], [])

  function SetPc(s: State, t: nat, pc: Pc): State
    requires t < |s.threads|
  {
    s.(threads := s.threads[t := pc])
  }

  // ----- memory -----

  function Load(mem: seq<Payload>, b: Block): Payload
  {
    if b < |mem| then mem[b] else []
  }

  function Store(mem: seq<Payload>, b: Block, data: Payload): (m: seq<Payload>)
    ensures |m| == |mem|
  {
    if b < |mem| then mem[b := data] else mem
  }

  function Payloads(mem: seq<Payload>, bs: seq<Block>): (ps: seq<Payload>)
    ensures |ps| == |bs|
  {
    seq(|bs|, i requires 0 <= i < |bs| => Load(mem, bs[i]))
  }

  function StoreAll(mem: seq<Payload>, bs: seq<Block>, data: seq<Payload>): (m: seq<Payload>)
    requires |bs| == |data|
    ensures |m| == |mem|
    decreases |bs|
  {
    if bs == [] then mem else StoreAll(Store(mem, bs[0], data[0]), bs[1..], data[1..])
  }

  // ----- steps -----

  predicate At(s: State, t: nat, pc: Pc)
  {
    t < |s.threads| && s.threads[t] == pc
  }

  predicate Enabled(s: State, step: Step)
  {
    match step
    case Enter(t, _) => At(s, t, Idle)
    case Check(t, _) => t < |s.threads| && s.threads[t].Entered?
    case Try(t, _) => t < |s.threads| && s.threads[t].Checked?
    case Wake(t, _) => t < |s.threads| && s.threads[t].Waiting?
    case CopyOut(t, _) => t < |s.threads| && s.threads[t].RdHeld?
    case CopyIn(t, _, _) => t < |s.threads| && s.threads[t].WtHeld?
    case Finish(t) =>
      t < |s.threads|
      && (s.threads[t].RdCopied? || s.threads[t].RdFailed? || s.threads[t].WtFilled? || s.threads[t].WtFailed?)
    case Refill(t) => At(s, t, RdRefilling)
    case Leave(t) => At(s, t, Leaving)
    // the hardware never reports more completions than are outstanding
    case Interrupt(rdData, wtCnt) => s.enable ==> |rdData| <= |s.rd.submit| && wtCnt <= |s.wt.submit|
    case StopBegin => s.control == NoControl
    case ResetDone(_) => s.control.Resetting?
    case Poll => s.control.Polling?
    case PollTimeout => s.control.Polling? && s.rwCnt != 0
    case StartBegin => s.control == NoControl
    case InitLists => s.control == Starting
    case StartRefill => s.control == Started
  }

  /** The head of the pending or free list goes to the thread; with none it sleeps or gives up. */
  function TakeOrWait(s: State, t: nat, op: Op, nonblock: bool): State
    requires t < |s.threads|
  {
    match op
    case Read =>
      if s.rd.pending != [] then SetPc(s.(rd := RdTake(s.rd)), t, RdHeld(s.rd.pending[0]))
      else SetPc(s, t, if nonblock then Leaving else Waiting(op))
    case Write =>
      if s.wt.free != [] then SetPc(s.(wt := WtTake(s.wt)), t, WtHeld(s.wt.free[0]))
      else SetPc(s, t, if nonblock then Leaving else Waiting(op))
  }

  /** The second critical section of a read or write. */
  function FinishBlock(s: State, t: nat): State
    requires Enabled(s, Finish(t))
  {
    match s.threads[t]
    case RdCopied(b) => SetPc(s.(rd := RdRelease(s.rd, b)), t, RdRefilling)
    case RdFailed(b) => SetPc(s.(rd := RdPutBack(s.rd, b)), t, Leaving)
    case WtFailed(b) => SetPc(s.(wt := WtPutBack(s.wt, b)), t, Leaving)
    case WtFilled(b) =>
      if !s.enable then SetPc(s.(orphans := s.orphans + [b]), t, Leaving)
      else SetPc(s.(wt := WtCommit(s.wt, b),
                    past := s.past.(committed := s.past.committed + [Load(s.wtMem, b)])), t, Leaving)
  }

  function Interrupted(s: State, rdData: seq<Payload>, wtCnt: nat): State
    requires |rdData| <= |s.rd.submit| && wtCnt <= |s.wt.submit|
  {
    s.(rd := RdInterrupt(s.rd, |rdData|),
       rdMem := StoreAll(s.rdMem, s.rd.submit[..|rdData|], rdData),
       wt := WtInterrupt(s.wt, wtCnt),
       past := s.past.(completed := s.past.completed + rdData,
                       retired := s.past.retired + Payloads(s.wtMem, s.wt.submit[..wtCnt])))
  }

  /** pdma_dev_list_init under the lock, then dma_enable := 1. */
  function ListsInitialised(s: State): State
  {
    s.(rd := FreshSide(s.rdNr), wt := FreshSide(s.wtNr), orphans := [], past := NO_HISTORY,
       enable := true, quiet := false, control := Started)
  }

  /** The unlocked dma_enable test, then the size test. */
  function CheckEntry(s: State, t: nat, sizeOk: bool): State
    requires t < |s.threads| && s.threads[t].Entered?
  {
    SetPc(s, t, if !s.enable || !sizeOk then Leaving else Checked(s.threads[t].op))
  }

  /** After sleeping: a signal or a stop ends the call, otherwise try again. */
  function Awaken(s: State, t: nat, signalled: bool): State
    requires t < |s.threads| && s.threads[t].Waiting?
  {
    if signalled || !s.enable then SetPc(s, t, Leaving) else TakeOrWait(s, t, s.threads[t].op, false)
  }

  function CopiedOut(s: State, t: nat, ok: bool): State
    requires t < |s.threads| && s.threads[t].RdHeld?
  {
    var b := s.threads[t].block;
    if ok then SetPc(s.(past := s.past.(delivered := s.past.delivered + [Load(s.rdMem, b)])), t, RdCopied(b))
    else SetPc(s, t, RdFailed(b))
  }

  /** A failed copy may have overwritten part of the block. */
  function CopiedIn(s: State, t: nat, ok: bool, data: Payload): State
    requires t < |s.threads| && s.threads[t].WtHeld?
  {
    var b := s.threads[t].block;
    SetPc(s.(wtMem := Store(s.wtMem, b, data)), t, if ok then WtFilled(b) else WtFailed(b))
  }

  function Refilled(s: State): State
  {
    s.(rd := if s.enable then RdRefill(s.rd) else s.rd)
  }

  /** Where a stop goes on: back to the START that made it, or out of the ioctl. */
  function AfterStop(start: bool): Control
  {
    if start then Starting else NoControl
  }

  function Apply(s: State, step: Step): State
    requires Enabled(s, step)
  {
    match step
    case Enter(t, op) => SetPc(s.(rwCnt := s.rwCnt + 1), t, Entered(op))
    case Check(t, sizeOk) => CheckEntry(s, t, sizeOk)
    case Try(t, nonblock) => TakeOrWait(s, t, s.threads[t].op, nonblock)
    case Wake(t, signalled) => Awaken(s, t, signalled)
    case CopyOut(t, ok) => CopiedOut(s, t, ok)
    case CopyIn(t, ok, data) => CopiedIn(s, t, ok, data)
    case Finish(t) => FinishBlock(s, t)
    case Refill(t) => SetPc(Refilled(s), t, Leaving)
    case Leave(t) => SetPc(s.(rwCnt := s.rwCnt - 1), t, Idle)
    case Interrupt(rdData, wtCnt) => if s.enable then Interrupted(s, rdData, wtCnt) else s
    case StopBegin => s.(enable := false, control := Resetting(false))
    case ResetDone(ok) => s.(control := if ok then Polling(s.control.start) else AfterStop(s.control.start))
    case Poll => if s.rwCnt != 0 then s else s.(control := AfterStop(s.control.start), quiet := true)
    case PollTimeout => s.(control := AfterStop(s.control.start))
    case StartBegin =>
      if s.enable then s.(enable := false, control := Resetting(true)) else s.(control := Starting)
    case InitLists => ListsInitialised(s)
    case StartRefill => Refilled(s).(control := NoControl)
  }

  /** A START reaches the lists only after some stop returned 0; the driver itself ignores that result. */
  predicate Assumed(s: State, step: Step)
  {
    step.InitLists? ==> s.quiet
  }

  predicate Legal(s: State, step: Step)
  {
    Enabled(s, step) && Assumed(s, step)
  }

  /** pdma_dev_ctrl_init: lists initialised, DMA disabled, n threads outside the driver. */
  function Initial(rdMem: seq<Payload>, wtMem: seq<Payload>, n: nat): State
  {
    State(false, 0, FreshSide(|rdMem|), FreshSide(|wtMem|), |rdMem|, |wtMem|, rdMem, wtMem,
          seq(n, _ => Idle), NoControl, true, [], NO_HISTORY)
  }

  predicate ValidRun(s: State, steps: seq<Step>)
    decreases |steps|
  {
    steps == [] || (Legal(s, steps[0]) && ValidRun(Apply(s, steps[0]), steps[1..]))
  }

  function Run(s: State, steps: seq<Step>): State
    requires ValidRun(s, steps)
    decreases |steps|
  {
    if steps == [] then s else Run(Apply(s, steps[0]), steps[1..])
  }

  ghost predicate Reachable(s: State)
  {
    exists rdMem, wtMem, n, steps ::
      ValidRun(Initial(rdMem, wtMem, n), steps) && s == Run(Initial(rdMem, wtMem, n), steps)
  }
}
