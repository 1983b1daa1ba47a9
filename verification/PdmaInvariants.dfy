/**
 What every step of the driver keeps: exact counts, the write queue discipline, quiescence after a
 stop, and the duty to refill the read FIFO.
 */
module PdmaInvariants {
  import opened PdmaLists
  import opened PdmaProtocol
  import opened PdmaConservation

  // ----- counts -----

  /** The FIFO count is the submit list's length and within the hardware depth. */
  ghost predicate SideCounted(side: Side)
  {
    side.submitCnt == |side.submit| <= RD_FIFO_DEPTH
  }

  /** A write waits on the pending list only while the hardware FIFO is full. */
  ghost predicate WritesQueued(w: Side)
  {
    SideCounted(w) && (w.pending != [] ==> w.submitCnt == WT_FIFO_DEPTH)
  }

  lemma RdSideKeeps(r: Side, n: nat)
    requires SideCounted(r)
    ensures SideCounted(RdRefill(r))
    ensures n <= |r.submit| ==> SideCounted(RdInterrupt(r, n))
  {
    RdRefillMoves(r);
    if n <= |r.submit| {
      RdInterruptKeepsCounted(r, n);
    }
  }

  lemma RdInterruptKeepsCounted(r: Side, n: nat)
    requires SideCounted(r) && n <= |r.submit|
    ensures SideCounted(RdInterrupt(r, n))
  {
    var m := RdInterruptMoves(r, n);
    assert |r.submit[n..] + r.free[..m]| == |r.submit| - n + m;
  }

  lemma WtSideKeeps(w: Side, b: Block, n: nat)
    requires WritesQueued(w)
    ensures WritesQueued(WtCommit(w, b))
    ensures n <= |w.submit| ==> WritesQueued(WtInterrupt(w, n))
  {
    if n <= |w.submit| {
      var m := WtInterruptMoves(w, n);
    }
  }

  ghost predicate Counted(s: State)
  {
    && SideCounted(s.rd) && WritesQueued(s.wt)
    && |s.rdMem| == s.rdNr && |s.wtMem| == s.wtNr
  }

  lemma InterruptKeepsCounted(s: State, rdData: seq<Payload>, wtCnt: nat)
    requires Counted(s) && |rdData| <= |s.rd.submit| && wtCnt <= |s.wt.submit|
    ensures Counted(Interrupted(s, rdData, wtCnt))
  {
    RdSideKeeps(s.rd, |rdData|);
    WtSideKeeps(s.wt, 0, wtCnt);
  }

  lemma StepKeepsCounted(s: State, step: Step)
    requires Counted(s) && Enabled(s, step)
    ensures Counted(Apply(s, step))
  {
    match step
    case Finish(t) => WtSideKeeps(s.wt, s.threads[t].block, 0);
    case Refill(_) => RdSideKeeps(s.rd, 0);
    case StartRefill => RdSideKeeps(s.rd, 0);
    case Interrupt(rdData, wtCnt) =>
      if s.enable {
        InterruptKeepsCounted(s, rdData, wtCnt);
      }
    case _ =>
  }

  // ----- threads inside the driver -----

  function Busy(threads: seq<Pc>): nat
  {
    if threads == [] then 0
    else Busy(threads[..|threads| - 1]) + if threads[|threads| - 1] == Idle then 0 else 1
  }

  lemma {:induction false} BusyUpdate(threads: seq<Pc>, t: nat, pc: Pc)
    requires t < |threads|
    ensures Busy(threads[t := pc]) + (if threads[t] == Idle then 0 else 1)
         == Busy(threads) + (if pc == Idle then 0 else 1)
  {
    var n := |threads| - 1;
    if t == n {
      assert threads[t := pc][..n] == threads[..n];
    } else {
      BusyUpdate(threads[..n], t, pc);
      assert threads[t := pc][..n] == threads[..n][t := pc];
    }
  }

  lemma {:induction false} BusyZero(threads: seq<Pc>, t: nat)
    requires t < |threads| && Busy(threads) == 0
    ensures threads[t] == Idle
  {
    if t < |threads| - 1 {
      BusyZero(threads[..|threads| - 1], t);
    }
  }

  lemma {:induction false} BusyNone(threads: seq<Pc>)
    requires forall t | 0 <= t < |threads| :: threads[t] == Idle
    ensures Busy(threads) == 0
  {
    if threads != [] {
      BusyNone(threads[..|threads| - 1]);
    }
  }

  /** rw_cnt is the number of threads inside read or write. */
  ghost predicate RwCounted(s: State)
  {
    s.rwCnt == Busy(s.threads)
  }

  /** Only thread t differs between the two states, and nobody when t is negative. */
  predicate MovesOnly(s: State, q: State, t: int)
  {
    && |q.threads| == |s.threads| && t < |s.threads|
    && (if t < 0 then q.threads == s.threads else q.threads == s.threads[t := q.threads[t]])
  }

  lemma TakeMovesOne(s: State, t: nat, op: Op, nonblock: bool)
    requires t < |s.threads|
    ensures MovesOnly(s, TakeOrWait(s, t, op, nonblock), t)
  {
  }

  lemma FinishMovesOne(s: State, t: nat)
    requires Enabled(s, Finish(t))
    ensures MovesOnly(s, FinishBlock(s, t), t)
  {
  }

  lemma StepMovesOne(s: State, step: Step)
    requires Enabled(s, step)
    ensures MovesOnly(s, Apply(s, step), Mover(step))
  {
    match step
    case Try(t, nonblock) => TakeMovesOne(s, t, s.threads[t].op, nonblock);
    case Wake(t, signalled) =>
      if !signalled && s.enable {
        TakeMovesOne(s, t, s.threads[t].op, false);
      }
    case Finish(t) => FinishMovesOne(s, t);
    case _ =>
  }

  /** Only entering and leaving cross the driver's boundary, and rw_cnt follows them. */
  lemma StepCrossesBoundary(s: State, step: Step)
    requires Enabled(s, step)
    ensures var q, t := Apply(s, step), Mover(step);
      && (t < 0 ==> q.rwCnt == s.rwCnt)
      && (t >= 0 && !step.Enter? && !step.Leave? ==>
            t < |s.threads| && s.threads[t] != Idle && q.threads[t] != Idle && q.rwCnt == s.rwCnt)
      && (step.Enter? ==> s.threads[t] == Idle && q.threads[t] != Idle && q.rwCnt == s.rwCnt + 1)
      && (step.Leave? ==> s.threads[t] != Idle && q.threads[t] == Idle && q.rwCnt == s.rwCnt - 1)
  {
  }

  lemma StepKeepsRwCounted(s: State, step: Step)
    requires RwCounted(s) && Enabled(s, step)
    ensures RwCounted(Apply(s, step))
  {
    StepMovesOne(s, step);
    StepCrossesBoundary(s, step);
    var t := Mover(step);
    if t >= 0 {
      BusyUpdate(s.threads, t, Apply(s, step).threads[t]);
    }
  }

  // ----- quiescence -----

  /** Outside, or not yet past the first dma_enable test, or on the way out. */
  predicate Passive(pc: Pc)
  {
    pc.Idle? || pc.Entered? || pc.Leaving?
  }

  /**
   After a stop that returned 0, DMA is off and no thread is past its first test. A stop in progress
   has DMA off as well.
   */
  ghost predicate Quiesced(s: State)
  {
    && (s.quiet ==> !s.enable && forall t | 0 <= t < |s.threads| :: Passive(s.threads[t]))
    && (s.control.Resetting? || s.control.Polling? || s.control.Starting? ==> !s.enable)
  }

  lemma StepKeepsQuiesced(s: State, step: Step)
    requires Quiesced(s) && RwCounted(s) && Enabled(s, step)
    ensures Quiesced(Apply(s, step))
  {
    StepMovesOne(s, step);
    var q := Apply(s, step);
    if q.quiet {
      forall t | 0 <= t < |q.threads|
        ensures Passive(q.threads[t])
      {
        if !s.quiet {
          BusyZero(s.threads, t);
        }
      }
    }
  }

  // ----- orphans -----

  /** Blocks are orphaned only while DMA is off. */
  ghost predicate OrphansStopped(s: State)
  {
    s.orphans != [] ==> !s.enable
  }

  lemma StepKeepsOrphansStopped(s: State, step: Step)
    requires OrphansStopped(s) && Enabled(s, step)
    ensures OrphansStopped(Apply(s, step))
  {
  }

  // ----- the duty to refill the read FIFO -----

  /** A free block and room in the FIFO mean that somebody is about to submit. */
  ghost predicate RefillOwed(s: State)
  {
    s.enable && s.rd.free != [] && s.rd.submitCnt < RD_FIFO_DEPTH ==>
      s.control == Started || exists t :: 0 <= t < |s.threads| && s.threads[t] == RdRefilling
  }

  lemma StepKeepsRefillOwed(s: State, step: Step)
    requires RefillOwed(s) && Enabled(s, step)
    ensures RefillOwed(Apply(s, step))
  {
    var q := Apply(s, step);
    StepMovesOne(s, step);
    match step
    case Finish(t) =>
      if s.threads[t].RdCopied? {
        assert q.threads[t] == RdRefilling;
      } else {
        OthersStillOwe(s, q, t);
      }
    case Refill(_) => RdRefillExhausts(s.rd);
    case StartRefill => RdRefillExhausts(s.rd);
    case Interrupt(rdData, _) =>
      if s.enable {
        var m := RdInterruptMoves(s.rd, |rdData|);
      }
    case InitLists =>
    case _ => OthersStillOwe(s, q, Mover(step));
  }

  /** A step that neither frees a read block nor moves a submitting thread leaves the duty where it is. */
  lemma OthersStillOwe(s: State, q: State, t: int)
    requires RefillOwed(s)
    requires q.enable ==> s.enable && q.rd.free == s.rd.free && q.rd.submitCnt == s.rd.submitCnt
    requires q.enable && s.control == Started ==> q.control == Started
    requires MovesOnly(s, q, t) && (t >= 0 ==> s.threads[t] != RdRefilling)
    ensures RefillOwed(q)
  {
    if q.enable && q.rd.free != [] && q.rd.submitCnt < RD_FIFO_DEPTH && s.control != Started {
      var u :| 0 <= u < |s.threads| && s.threads[u] == RdRefilling;
      assert q.threads[u] == RdRefilling;
    }
  }
}
