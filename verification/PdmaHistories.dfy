/**
 Which histories the statistics can record (pdma-v1.1-src/pdma-dev.c): runs of one thread that reads or writes one
 block at a time, with interrupts between, and the histories they leave.
 */
module PdmaHistories {
  import opened PdmaLists
  import opened PdmaProtocol
  import opened PdmaConservation
  import opened PdmaInvariants
  import opened PdmaTheorems
  import opened PdmaStats

  // ----- one call at a time -----

  /** DMA on, no ioctl in progress, one thread. */
  predicate Alone(s: State, pc: Pc)
  {
    s.enable && s.control == NoControl && s.threads == [pc]
  }

  ghost predicate Calm(s: State)
  {
    Reachable(s) && Alone(s, Idle)
  }

  predicate SamePools(s: State, q: State)
  {
    q.rdNr == s.rdNr && q.wtNr == s.wtNr
  }

  lemma CalmStarted(rdNr: nat, wtNr: nat) returns (s: State)
    ensures Reachable(s) && s.enable && s.control == Started && s.threads == [Idle]
    ensures s.rd == FreshSide(rdNr) && s.wt == FreshSide(wtNr) && s.rdNr == rdNr && s.wtNr == wtNr
  {
    var rdMem, wtMem := seq(rdNr, _ => []), seq(wtNr, _ => []);
    s := Initial(rdMem, wtMem, 1);
    ReachableInitial(rdMem, wtMem, 1);
    ReachableStep(s, StartBegin);
    s := Apply(s, StartBegin);
    ReachableStep(s, InitLists);
    s := Apply(s, InitLists);
  }

  lemma CalmStart(rdNr: nat, wtNr: nat) returns (s: State)
    ensures Calm(s) && s.rdNr == rdNr && s.wtNr == wtNr
    ensures s.rd == RdRefill(FreshSide(rdNr)) && s.wt == FreshSide(wtNr)
  {
    s := CalmStarted(rdNr, wtNr);
    ReachableStep(s, StartRefill);
    s := Apply(s, StartRefill);
  }

  lemma CalmEnters(s: State, op: Op) returns (q: State)
    requires Calm(s)
    ensures Reachable(q) && Alone(q, Checked(op)) && SamePools(s, q) && q.rd == s.rd && q.wt == s.wt
  {
    ReachableStep(s, Enter(0, op));
    q := Apply(s, Enter(0, op));
    assert Alone(q, Entered(op));
    ReachableStep(q, Check(0, true));
    q := Apply(q, Check(0, true));
  }

  lemma CalmLeaves(s: State) returns (q: State)
    requires Reachable(s) && Alone(s, Leaving)
    ensures Calm(q) && SamePools(s, q) && q.rd == s.rd && q.wt == s.wt
  {
    ReachableStep(s, Leave(0));
    q := Apply(s, Leave(0));
  }

  lemma CalmTakes(s: State) returns (q: State)
    requires Calm(s) && s.wt.free != []
    ensures Reachable(q) && Alone(q, WtHeld(s.wt.free[0])) && SamePools(s, q) && q.rd == s.rd && q.wt == WtTake(s.wt)
  {
    q := CalmEnters(s, Write);
    ReachableStep(q, Try(0, true));
    q := Apply(q, Try(0, true));
  }

  lemma CalmFills(s: State, b: Block) returns (q: State)
    requires Reachable(s) && Alone(s, WtHeld(b))
    ensures Reachable(q) && Alone(q, WtFilled(b)) && SamePools(s, q) && q.rd == s.rd && q.wt == s.wt
  {
    ReachableStep(s, CopyIn(0, true, []));
    q := Apply(s, CopyIn(0, true, []));
  }

  lemma CalmCommits(s: State, b: Block) returns (q: State)
    requires Reachable(s) && Alone(s, WtFilled(b))
    ensures Reachable(q) && Alone(q, Leaving) && SamePools(s, q) && q.rd == s.rd && q.wt == WtCommit(s.wt, b)
  {
    ReachableStep(s, Finish(0));
    q := Apply(s, Finish(0));
  }

  /** One write. */
  lemma CalmWrite(s: State) returns (q: State)
    requires Calm(s) && s.wt.free != []
    ensures Calm(q) && SamePools(s, q) && q.wt == WtCommit(WtTake(s.wt), s.wt.free[0])
  {
    q := CalmTakes(s);
    q := CalmFills(q, s.wt.free[0]);
    q := CalmCommits(q, s.wt.free[0]);
    q := CalmLeaves(q);
  }

  lemma CalmGets(s: State) returns (q: State)
    requires Calm(s) && s.rd.pending != []
    ensures Reachable(q) && Alone(q, RdHeld(s.rd.pending[0])) && SamePools(s, q) && q.rd == RdTake(s.rd)
  {
    q := CalmEnters(s, Read);
    ReachableStep(q, Try(0, true));
    q := Apply(q, Try(0, true));
  }

  lemma CalmCopies(s: State, b: Block) returns (q: State)
    requires Reachable(s) && Alone(s, RdHeld(b))
    ensures Reachable(q) && Alone(q, RdCopied(b)) && SamePools(s, q) && q.rd == s.rd
  {
    ReachableStep(s, CopyOut(0, true));
    q := Apply(s, CopyOut(0, true));
  }

  lemma CalmReleases(s: State, b: Block) returns (q: State)
    requires Reachable(s) && Alone(s, RdCopied(b))
    ensures Reachable(q) && Alone(q, Leaving) && SamePools(s, q) && q.rd == RdRefill(RdRelease(s.rd, b))
  {
    ReachableStep(s, Finish(0));
    q := Apply(s, Finish(0));
    assert Alone(q, RdRefilling) && q.rd == RdRelease(s.rd, b);
    ReachableStep(q, Refill(0));
    q := Apply(q, Refill(0));
  }

  /** One read. */
  lemma CalmRead(s: State) returns (q: State)
    requires Calm(s) && s.rd.pending != []
    ensures Calm(q) && SamePools(s, q) && q.rd == RdRefill(RdRelease(RdTake(s.rd), s.rd.pending[0]))
  {
    q := CalmGets(s);
    q := CalmCopies(q, s.rd.pending[0]);
    q := CalmReleases(q, s.rd.pending[0]);
    q := CalmLeaves(q);
  }

  lemma CalmInterrupt(s: State, rdCnt: nat, wtCnt: nat) returns (q: State)
    requires Calm(s) && rdCnt <= |s.rd.submit| && wtCnt <= |s.wt.submit|
    ensures Calm(q) && SamePools(s, q) && q.rd == RdInterrupt(s.rd, rdCnt) && q.wt == WtInterrupt(s.wt, wtCnt)
  {
    var data := seq(rdCnt, _ => []);
    ReachableStep(s, Interrupt(data, wtCnt));
    q := Apply(s, Interrupt(data, wtCnt));
  }

  // ----- what the lists' operations leave of the histories -----

  lemma {:induction false} RdRefillKeepsLogs(r: Side)
    ensures RdRefill(r).fifoLog == r.fifoLog && RdRefill(r).pendingLog == r.pendingLog
    ensures RdRefill(r).submitStat == r.submitStat + |RdRefill(r).submit| - |r.submit|
    decreases |r.free|
  {
    if r.submitCnt < RD_FIFO_DEPTH && r.free != [] {
      RdRefillKeepsLogs(RdSubmitOne(r));
    }
  }

  lemma {:induction false} WtCompleteKeepsLogs(w: Side, n: nat)
    requires n <= |w.submit|
    ensures WtComplete(w, n).fifoLog == w.fifoLog && WtComplete(w, n).pendingLog == w.pendingLog
    decreases n
  {
    if n > 0 {
      WtCompleteKeepsLogs(WtCompleteOne(w), n - 1);
    }
  }

  lemma {:induction false} WtRefillKeepsBacklog(w: Side)
    ensures WtRefill(w).pendingLog == w.pendingLog
    ensures w.pending == [] ==> WtRefill(w) == w
    decreases |w.pending|
  {
    if w.submitCnt < WT_FIFO_DEPTH && w.pending != [] {
      WtRefillKeepsBacklog(WtSubmitOne(w));
    }
  }

  lemma WtInterruptLogs(w: Side, n: nat)
    requires n <= |w.submit|
    ensures WtInterrupt(w, n).pendingLog == w.pendingLog
    ensures w.pending == [] ==> WtInterrupt(w, n).fifoLog == w.fifoLog
  {
    WtCompleteKeepsLogs(w, n);
    WtCompleteMoves(w, n);
    if n > 0 {
      WtRefillKeepsBacklog(WtComplete(w, n).(submitCnt := w.submitCnt - n));
    }
  }

  lemma RisingInit(log: seq<int>, top: int) returns (init: seq<int>, v: int)
    requires log != [] && Rising(log, top)
    ensures log == init + [v] && Rising(init, top) && 1 <= v <= top && v <= Last(init) + 1
  {
    var n := |log| - 1;
    init, v := log[..n], log[n];
    assert RisesAt(log, n, top);
    forall i: nat | i < n
      ensures RisesAt(init, i, top)
    {
      assert RisesAt(log, i, top);
    }
  }

  // ----- the write FIFO -----

  /** Nothing waits, the FIFO's level is the last recorded, and every other block is free. */
  ghost predicate WtAt(s: State, log: seq<int>, nr: nat)
  {
    && Calm(s) && s.wtNr == nr && s.wt.fifoLog == log && s.wt.pendingLog == []
    && s.wt.pending == [] && |s.wt.submit| == Last(log) == s.wt.submitStat == s.wt.submitCnt && Total(s.wt) == nr
  }

  lemma CountsKnown(s: State)
    requires Reachable(s)
    ensures s.rd.submitStat == |s.rd.submit| == s.rd.submitCnt <= RD_FIFO_DEPTH && s.rd.pendingStat == |s.rd.pending|
    ensures s.wt.submitStat == |s.wt.submit| == s.wt.submitCnt <= WT_FIFO_DEPTH && s.wt.pendingStat == |s.wt.pending|
    ensures Stats(s)
  {
    ReachableInv(s);
    ReachableStats(s);
  }

  lemma WtDropTo(s: State, log: seq<int>, nr: nat, level: nat) returns (q: State)
    requires WtAt(s, log, nr) && level <= Last(log)
    ensures Calm(q) && q.wtNr == nr && q.wt.fifoLog == log && q.wt.pendingLog == []
    ensures q.wt.pending == [] && |q.wt.submit| == level == q.wt.submitStat == q.wt.submitCnt && Total(q.wt) == nr
  {
    var n := Last(log) - level;
    q := CalmInterrupt(s, 0, n);
    WtInterruptLogs(s.wt, n);
    var m := WtInterruptMoves(s.wt, n);
    CountsKnown(q);
  }

  /** Every rising history within the pool and the FIFO's depth can be recorded. */
  lemma {:induction false} WtFifoHistory(log: seq<int>, nr: nat) returns (s: State)
    requires Rising(log, Depth(nr))
    ensures WtAt(s, log, nr)
    decreases |log|
  {
    if log == [] {
      s := CalmStart(0, nr);
    } else {
      var init, v := RisingInit(log, Depth(nr));
      s := WtFifoHistory(init, nr);
      s := WtDropTo(s, init, nr, v - 1);
      s := CalmWrite(s);
      CountsKnown(s);
    }
  }

  // ----- the write backlog -----

  /** The FIFO is full and the backlog's level is the last recorded. */
  ghost predicate WtBehind(s: State, log: seq<int>, level: int, nr: nat)
  {
    && Calm(s) && s.wtNr == nr && s.wt.pendingLog == log && |s.wt.submit| == WT_FIFO_DEPTH == s.wt.submitCnt
    && |s.wt.pending| == level == s.wt.pendingStat && Total(s.wt) == nr
  }

  function Climb(n: nat): (log: seq<int>)
    ensures |log| == n
  {
    seq(n, i => i + 1)
  }

  lemma WtFull(nr: nat) returns (s: State)
    requires nr >= WT_FIFO_DEPTH
    ensures WtBehind(s, [], 0, nr)
  {
    s := WtFifoHistory(Climb(WT_FIFO_DEPTH), nr);
    CountsKnown(s);
  }

  lemma {:induction false} WtCatchUp(s: State, log: seq<int>, from: int, level: nat, nr: nat) returns (q: State)
    requires WtBehind(s, log, from, nr) && level <= from
    ensures WtBehind(q, log, level, nr)
    decreases from - level
  {
    q := s;
    if level < from {
      q := CalmInterrupt(s, 0, 1);
      WtInterruptLogs(s.wt, 1);
      var m := WtInterruptMoves(s.wt, 1);
      CountsKnown(q);
      q := WtCatchUp(q, log, from - 1, level, nr);
    }
  }

  /** Every rising history within what the pool has beyond the FIFO can be recorded. */
  lemma {:induction false} WtBacklogHistory(log: seq<int>, nr: nat) returns (s: State)
    requires Rising(log, nr - WT_FIFO_DEPTH) && nr >= WT_FIFO_DEPTH
    ensures WtBehind(s, log, Last(log), nr)
    decreases |log|
  {
    if log == [] {
      s := WtFull(nr);
    } else {
      var init, v := RisingInit(log, nr - WT_FIFO_DEPTH);
      s := WtBacklogHistory(init, nr);
      s := WtCatchUp(s, init, Last(init), v - 1, nr);
      s := CalmWrite(s);
      CountsKnown(s);
    }
  }

  // ----- the read backlog -----

  /** The backlog has the given level, and what is not in it is submitted as far as the FIFO takes it. */
  ghost predicate RdBehind(s: State, log: seq<int>, level: int, nr: nat)
  {
    && Calm(s) && s.rdNr == nr && s.rd.pendingLog == log && |s.rd.pending| == level && Total(s.rd) == nr
    && (s.rd.free == [] || |s.rd.submit| == RD_FIFO_DEPTH)
  }

  lemma RdReadOne(s: State, log: seq<int>, level: int, nr: nat) returns (q: State)
    requires RdBehind(s, log, level, nr) && level > 0
    ensures RdBehind(q, log, level - 1, nr) && q.rd.fifoLog == s.rd.fifoLog
  {
    q := CalmRead(s);
    var r := RdRelease(RdTake(s.rd), s.rd.pending[0]);
    RdRefillKeepsLogs(r);
    RdRefillMoves(r);
    RdRefillExhausts(r);
    CountsKnown(q);
  }

  lemma {:induction false} RdCatchUp(s: State, log: seq<int>, from: int, level: nat, nr: nat) returns (q: State)
    requires RdBehind(s, log, from, nr) && level <= from
    ensures RdBehind(q, log, level, nr)
    decreases from - level
  {
    q := s;
    if level < from {
      q := RdReadOne(s, log, from, nr);
      q := RdCatchUp(q, log, from - 1, level, nr);
    }
  }

  lemma CompleteOneLogs(r: Side)
    requires r.submit != []
    ensures RdInterrupt(r, 1).pendingLog == r.pendingLog + [r.pendingStat + 1]
    ensures RdInterrupt(r, 1).fifoLog == r.fifoLog + [r.submitStat - 1]
  {
    var c := RdCompleteOne(r);
    assert RdComplete(c, 0) == c && RdComplete(r, 1) == c;
    RdRefillKeepsLogs(c.(submitCnt := r.submitCnt - 1));
  }

  lemma RdCompleteOneMore(s: State, log: seq<int>, level: nat, nr: nat) returns (q: State)
    requires RdBehind(s, log, level, nr) && level < nr
    ensures RdBehind(q, log + [level + 1], level + 1, nr)
    ensures q.rd.fifoLog == s.rd.fifoLog + [|s.rd.submit| - 1]
  {
    CountsKnown(s);
    q := CalmInterrupt(s, 1, 0);
    CompleteOneLogs(s.rd);
    var m := RdInterruptMoves(s.rd, 1);
    CountsKnown(q);
  }

  lemma RdStart(nr: nat) returns (s: State)
    ensures RdBehind(s, [], 0, nr) && s.rd.fifoLog == []
  {
    s := CalmStart(nr, 0);
    RdRefillKeepsLogs(FreshSide(nr));
    RdRefillMoves(FreshSide(nr));
    RdRefillExhausts(FreshSide(nr));
    CountsKnown(s);
  }

  /** Every rising history within the pool can be recorded. */
  lemma {:induction false} RdBacklogHistory(log: seq<int>, nr: nat) returns (s: State)
    requires Rising(log, nr)
    ensures RdBehind(s, log, Last(log), nr)
    decreases |log|
  {
    if log == [] {
      s := RdStart(nr);
    } else {
      var init, v := RisingInit(log, nr);
      s := RdBacklogHistory(init, nr);
      s := RdCatchUp(s, init, Last(init), v - 1, nr);
      s := RdCompleteOneMore(s, init, v - 1, nr);
    }
  }

  // ----- the read FIFO -----

  function Repeated(v: int, n: nat): (log: seq<int>)
    ensures |log| == n
  {
    seq(n, _ => v)
  }

  lemma RepeatedMore(v: int, n: nat)
    requires n > 0
    ensures Repeated(v, n) == Repeated(v, n - 1) + [v]
  {
  }

  /** The FIFO can be found one short of full any number of times. */
  lemma {:induction false} RdFifoHistory(n: nat, nr: nat) returns (s: State)
    requires nr > 0
    ensures exists log :: RdBehind(s, log, 0, nr)
    ensures s.rd.fifoLog == Repeated(Depth(nr) - 1, n)
    decreases n
  {
    if n == 0 {
      s := RdStart(nr);
    } else {
      s := RdFifoHistory(n - 1, nr);
      var log :| RdBehind(s, log, 0, nr);
      CountsKnown(s);
      var q := RdCompleteOneMore(s, log, 0, nr);
      RepeatedMore(Depth(nr) - 1, n);
      s := RdReadOne(q, log + [1], 1, nr);
    }
  }

  lemma CompleteTwoLogs(r: Side)
    requires |r.submit| >= 2
    ensures RdInterrupt(r, 2).fifoLog == r.fifoLog + [r.submitStat - 1, r.submitStat - 2]
  {
    var c1 := RdCompleteOne(r);
    var c2 := RdCompleteOne(c1);
    assert RdComplete(c2, 0) == c2 && RdComplete(c1, 1) == c2 && RdComplete(r, 2) == c2;
    RdRefillKeepsLogs(c2.(submitCnt := r.submitCnt - 2));
  }

  /** And then two short. */
  lemma RdFifoDip(n: nat, nr: nat) returns (s: State)
    requires n > 0 && nr > 1
    ensures Calm(s) && s.rdNr == nr && s.rd.fifoLog == Repeated(Depth(nr) - 1, n) + [Depth(nr) - 2]
  {
    s := RdFifoHistory(n - 1, nr);
    CountsKnown(s);
    CompleteTwoLogs(s.rd);
    RepeatedMore(Depth(nr) - 1, n);
    s := CalmInterrupt(s, 2, 0);
  }

  // ----- the four tracked quantities -----

  datatype Meter = RdFifo | RdBacklog | WtFifo | WtBacklog

  function LogOf(s: State, meter: Meter): seq<int>
  {
    match meter
    case RdFifo => s.rd.fifoLog
    case RdBacklog => s.rd.pendingLog
    case WtFifo => s.wt.fifoLog
    case WtBacklog => s.wt.pendingLog
  }

  function PoolOf(s: State, meter: Meter): nat
  {
    if meter.RdFifo? || meter.RdBacklog? then s.rdNr else s.wtNr
  }

  /** The largest value that can be recorded. */
  function Top(meter: Meter, nr: nat): int
  {
    match meter
    case RdFifo => Depth(nr) - 1
    case RdBacklog => nr
    case WtFifo => Depth(nr)
    case WtBacklog => nr - WT_FIFO_DEPTH
  }

  lemma HistoryRises(s: State, meter: Meter)
    requires Reachable(s)
    ensures Within(LogOf(s, meter), 0, Top(meter, PoolOf(s, meter)))
    ensures !meter.RdFifo? ==> Rising(LogOf(s, meter), Top(meter, PoolOf(s, meter)))
  {
    ReachableStats(s);
    if !meter.RdFifo? {
      RisingWithin(LogOf(s, meter), Top(meter, PoolOf(s, meter)));
    }
  }

  lemma HistoryOf(meter: Meter, log: seq<int>, nr: nat) returns (s: State)
    requires !meter.RdFifo? && Rising(log, Top(meter, nr))
    ensures Reachable(s) && PoolOf(s, meter) == nr && LogOf(s, meter) == log
  {
    match meter
    case RdBacklog => s := RdBacklogHistory(log, nr);
    case WtFifo => s := WtFifoHistory(log, nr);
    case WtBacklog =>
      if nr >= WT_FIFO_DEPTH {
        s := WtBacklogHistory(log, nr);
      } else {
        s := CalmStart(0, nr);
        assert log == [] by {
          assert log != [] ==> RisesAt(log, 0, Top(meter, nr));
        }
      }
  }

  /** Exactly which histories of the backlogs and the write FIFO are those of a reachable state. */
  lemma HistoriesIff(meter: Meter, log: seq<int>, nr: nat)
    requires !meter.RdFifo?
    ensures (exists s :: Reachable(s) && PoolOf(s, meter) == nr && LogOf(s, meter) == log)
      <==> Rising(log, Top(meter, nr))
  {
    if Rising(log, Top(meter, nr)) {
      var s := HistoryOf(meter, log, nr);
    } else {
      forall s | Reachable(s) && PoolOf(s, meter) == nr
        ensures LogOf(s, meter) != log
      {
        HistoryRises(s, meter);
      }
    }
  }
}
