/**
 The driver's statistics (pdma-v1.1-src/pdma-dev.c, pdma_stat_* and pdma_get_stat) against the history
 they summarise.
 */
module PdmaStats {
  import opened PdmaLists
  import opened PdmaProtocol
  import opened PdmaConservation
  import opened PdmaInvariants
  import opened PdmaOrder
  import opened PdmaTheorems
  import opened Words
  import Counting

  // ----- summaries of a history -----

  function Sum(log: seq<int>): int
  {
    if log == [] then 0 else Sum(log[..|log| - 1]) + log[|log| - 1]
  }

  /** The largest recorded value, 0 before the first. */
  function Highest(log: seq<int>): int
  {
    if log == [] then 0
    else
      var h, v := Highest(log[..|log| - 1]), log[|log| - 1];
      if v > h then v else h
  }

  /** The smallest recorded value, 0 before the first. */
  function Lowest(log: seq<int>): int
  {
    if log == [] then 0
    else
      var l, v := Lowest(log[..|log| - 1]), log[|log| - 1];
      if |log| == 1 || v < l then v else l
  }

  function HighTally(log: seq<int>): Tally
  {
    Tally(Sum(log), |log|, Highest(log))
  }

  function LowTally(log: seq<int>): Tally
  {
    Tally(Sum(log), |log|, Lowest(log))
  }

  /** Updating the three counters is summarising the longer history. */
  lemma TalliesFollowLog(log: seq<int>, v: int)
    ensures AddHigh(HighTally(log), v) == HighTally(log + [v])
    ensures AddLow(LowTally(log), v) == LowTally(log + [v])
  {
    assert (log + [v])[..|log|] == log;
  }

  ghost predicate Within(log: seq<int>, lo: int, hi: int)
  {
    forall i | 0 <= i < |log| :: lo <= log[i] <= hi
  }

  lemma {:induction false} HighestBounds(log: seq<int>, hi: int)
    requires Within(log, 0, hi) && hi >= 0
    ensures Within(log, 0, Highest(log)) && 0 <= Highest(log) <= hi
    ensures log != [] ==> Highest(log) in log
    ensures 0 <= Sum(log) <= |log| * Highest(log)
  {
    if log != [] {
      var init, v := log[..|log| - 1], log[|log| - 1];
      HighestBounds(init, hi);
      assert log == init + [v];
      SumStep(|init|, Highest(init), Highest(log));
      if init == [] {
        assert log[0] == v;
      }
    }
  }

  lemma SumStep(n: nat, a: int, b: int)
    requires a <= b
    ensures n * a + b <= (n + 1) * b
  {
    MulMonotone(n, a, b);
  }

  lemma MeanStep(n: nat, a: int, b: int, v: int)
    requires b <= a && b <= v
    ensures (n + 1) * b <= n * a + v
  {
    MulMonotone(n, b, a);
  }

  lemma {:induction false} LowestBounds(log: seq<int>, hi: int)
    requires Within(log, 0, hi)
    ensures Within(log, Lowest(log), hi) && 0 <= Lowest(log)
    ensures log != [] ==> Lowest(log) in log
    ensures |log| * Lowest(log) <= Sum(log)
  {
    if log != [] {
      var init, v := log[..|log| - 1], log[|log| - 1];
      LowestBounds(init, hi);
      assert log == init + [v];
      if init != [] {
        MeanStep(|init|, Lowest(init), Lowest(log), v);
      } else {
        assert log == [v];
      }
    }
  }

  /** Floor of the mean; the current value before anything was recorded. */
  function Average(log: seq<int>, current: int): int
  {
    if log == [] then current else Sum(log) / |log|
  }

  lemma AverageBelowHighest(log: seq<int>, current: int, hi: int)
    requires Within(log, 0, hi) && 0 <= current <= Highest(log) && hi >= 0
    ensures 0 <= Average(log, current) <= Highest(log)
  {
    HighestBounds(log, hi);
    if log != [] {
      QuotientBounds(Sum(log), |log|, 0, Highest(log));
    }
  }

  lemma AverageAboveLowest(log: seq<int>, current: int, hi: int)
    requires Within(log, 0, hi) && 0 <= current <= hi
    ensures Lowest(log) <= Average(log, current) <= hi
  {
    LowestBounds(log, hi);
    HighestBounds(log, hi);
    if log != [] {
      QuotientBounds(Sum(log), |log|, Lowest(log), Highest(log));
    }
  }

  lemma QuotientAtLeast(sum: int, n: nat, lo: int)
    requires n > 0 && n * lo <= sum
    ensures lo <= sum / n
  {
    var q := sum / n;
    if q < lo {
      MulMonotone(n, q + 1, lo);
    }
  }

  lemma QuotientAtMost(sum: int, n: nat, hi: int)
    requires n > 0 && sum <= n * hi
    ensures sum / n <= hi
  {
    var q := sum / n;
    if q > hi {
      MulMonotone(n, hi + 1, q);
    }
  }

  lemma QuotientBounds(sum: int, n: nat, lo: int, hi: int)
    requires n > 0 && n * lo <= sum <= n * hi
    ensures lo <= sum / n <= hi
  {
    QuotientAtLeast(sum, n, lo);
    QuotientAtMost(sum, n, hi);
  }

  // ----- percentages -----

  /** A count as a percentage in unsigned 32-bit arithmetic, rounded down but never down to zero. */
  function Percent(n: int, of: nat): nat
    requires of > 0
  {
    var p := n * 100 % TWO32 / of;
    if p == 0 && n != 0 then 1 else p
  }

  /** Every percentage is at most 100 and is zero exactly when its count is, even where 32 bits wrap. */
  lemma PercentRange(n: nat, of: nat)
    requires 0 < of && n <= of
    ensures Percent(n, of) <= 100 && (Percent(n, of) == 0 <==> n == 0)
  {
    var m := n * 100 % TWO32;
    if of * 100 < TWO32 {
      assert m == n * 100;
      QuotientBounds(m, of, 0, 100);
    } else {
      assert of >= 42949673;
      assert m <= of * 100;
      QuotientBounds(m, of, 0, 100);
    }
  }

  /** A percentage as the report means it: rounded down, but one for anything between nothing and one percent. */
  predicate IsPercent(p: int, n: int, of: nat)
  {
    p * of <= 100 * n < (p + 1) * of || (p == 1 && 0 < 100 * n < of)
  }

  /** Without wrap-around every percentage is that. */
  lemma PercentIs(n: nat, of: nat)
    requires 0 < of && n <= of && of * 100 < TWO32
    ensures IsPercent(Percent(n, of), n, of) && (Percent(n, of) == 0 <==> n == 0)
  {
    assert n * 100 % TWO32 == n * 100;
    var q := n * 100 / of;
    assert q * of <= n * 100 < (q + 1) * of;
  }

  /** Without wrap-around percentages keep the order of the counts. */
  lemma PercentMonotone(a: nat, b: nat, of: nat)
    requires 0 < of && a <= b <= of && of * 100 < TWO32
    ensures Percent(a, of) <= Percent(b, of)
  {
    assert a * 100 % TWO32 == a * 100 && b * 100 % TWO32 == b * 100;
    QuotientMonotone(a * 100, b * 100, of);
    QuotientAtLeast(a * 100, of, 0);
  }

  lemma QuotientMonotone(a: nat, b: nat, n: nat)
    requires a <= b && n > 0
    ensures a / n <= b / n
  {
    var q := a / n;
    assert n * q <= a;
    QuotientAtLeast(b, n, q);
  }

  // ----- the counters along a run -----

  function Total(side: Side): nat
  {
    |side.free| + |side.submit| + |side.pending|
  }

  /** How many blocks of a pool the hardware FIFO takes. */
  function Depth(nr: nat): nat
  {
    if nr < RD_FIFO_DEPTH then nr else RD_FIFO_DEPTH
  }

  function Last(log: seq<int>): int
  {
    if log == [] then 0 else log[|log| - 1]
  }

  predicate RisesAt(log: seq<int>, i: nat, top: int)
    requires i < |log|
  {
    1 <= log[i] <= top && log[i] <= (if i == 0 then 0 else log[i - 1]) + 1
  }

  /** A level recorded whenever it rises by one, from 0 on: never more than one above the value before. */
  ghost predicate Rising(log: seq<int>, top: int)
  {
    forall i: nat | i < |log| :: RisesAt(log, i, top)
  }

  /** And the level itself, which since the last record can only have fallen. */
  ghost predicate Rises(log: seq<int>, level: int, top: int)
  {
    Rising(log, top) && 0 <= level <= Last(log)
  }

  lemma RisesSnoc(log: seq<int>, level: int, v: int, top: int)
    requires Rises(log, level, top) && v == level + 1 <= top
    ensures Rises(log + [v], v, top)
  {
    forall i: nat | i < |log| + 1
      ensures RisesAt(log + [v], i, top)
    {
      assert i < |log| ==> RisesAt(log, i, top);
    }
  }

  ghost predicate SideStats(side: Side, top: int)
  {
    && side.freeStat == |side.free| && side.submitStat == |side.submit| && side.pendingStat == |side.pending|
    && Rises(side.pendingLog, |side.pending|, top) && side.backlog == HighTally(side.pendingLog)
  }

  /** Reads record the FIFO level whenever it falls, and all of the pool may be pending. */
  ghost predicate RdStats(r: Side, nr: nat)
  {
    SideStats(r, nr) && Within(r.fifoLog, 0, Depth(nr) - 1) && r.fifo == LowTally(r.fifoLog)
  }

  /** Writes record it whenever it rises, and only what the FIFO has no room for is pending. */
  ghost predicate WtStats(w: Side, nr: nat)
  {
    SideStats(w, nr - WT_FIFO_DEPTH) && Rises(w.fifoLog, |w.submit|, Depth(nr)) && w.fifo == HighTally(w.fifoLog)
  }

  lemma HighestSnoc(log: seq<int>, v: int)
    ensures Highest(log + [v]) == if v > Highest(log) then v else Highest(log)
  {
    assert (log + [v])[..|log|] == log;
  }

  lemma WithinSnoc(log: seq<int>, v: int, hi: int)
    requires Within(log, 0, hi) && 0 <= v <= hi
    ensures Within(log + [v], 0, hi)
    ensures Highest(log + [v]) >= v && Highest(log + [v]) >= Highest(log)
  {
    HighestSnoc(log, v);
  }

  lemma RisingWithin(log: seq<int>, top: int)
    requires Rising(log, top)
    ensures Within(log, 0, top)
  {
    forall i: nat | i < |log|
      ensures 0 <= log[i] <= top
    {
      assert RisesAt(log, i, top);
    }
  }

  /** Recording a level that has risen by one. */
  lemma LevelRises(log: seq<int>, t: Tally, level: int, v: int, top: int)
    requires Rises(log, level, top) && t == HighTally(log) && v == level + 1 <= top
    ensures Rises(log + [v], v, top) && AddHigh(t, v) == HighTally(log + [v])
  {
    RisesSnoc(log, level, v, top);
    TalliesFollowLog(log, v);
  }

  /** A rising level never passes the highest value recorded. */
  lemma RisesBounds(log: seq<int>, level: int, top: int, hi: int)
    requires Rises(log, level, top) && top <= hi
    ensures Within(log, 0, hi) && level <= Highest(log)
  {
    RisingWithin(log, top);
    if log != [] {
      var init, v := log[..|log| - 1], log[|log| - 1];
      HighestSnoc(init, v);
      assert log == init + [v];
    }
  }

  lemma {:induction false} RdRefillStats(r: Side, nr: nat)
    requires RdStats(r, nr)
    ensures RdStats(RdRefill(r), nr)
    decreases |r.free|
  {
    if r.submitCnt < RD_FIFO_DEPTH && r.free != [] {
      RdRefillStats(RdSubmitOne(r), nr);
    }
  }

  lemma RdCompleteOneStats(r: Side, nr: nat)
    requires RdStats(r, nr) && r.submit != [] && |r.submit| <= RD_FIFO_DEPTH && Total(r) <= nr
    ensures RdStats(RdCompleteOne(r), nr) && Total(RdCompleteOne(r)) == Total(r)
  {
    LevelRises(r.pendingLog, r.backlog, |r.pending|, r.pendingStat + 1, nr);
    WithinSnoc(r.fifoLog, r.submitStat - 1, Depth(nr) - 1);
    TalliesFollowLog(r.fifoLog, r.submitStat - 1);
  }

  lemma {:induction false} RdCompleteStats(r: Side, n: nat, nr: nat)
    requires RdStats(r, nr) && n <= |r.submit| <= RD_FIFO_DEPTH && Total(r) <= nr
    ensures RdStats(RdComplete(r, n), nr)
    decreases n
  {
    if n > 0 {
      RdCompleteOneStats(r, nr);
      RdCompleteStats(RdCompleteOne(r), n - 1, nr);
    }
  }

  lemma RdInterruptStats(r: Side, n: nat, nr: nat)
    requires RdStats(r, nr) && n <= |r.submit| <= RD_FIFO_DEPTH && Total(r) <= nr
    ensures RdStats(RdInterrupt(r, n), nr)
  {
    RdCompleteStats(r, n, nr);
    if n > 0 {
      RdRefillStats(RdComplete(r, n).(submitCnt := r.submitCnt - n), nr);
    }
  }

  lemma RdPutBackStats(r: Side, b: Block, nr: nat)
    requires RdStats(r, nr) && Total(RdPutBack(r, b)) <= nr
    ensures RdStats(RdPutBack(r, b), nr)
  {
    LevelRises(r.pendingLog, r.backlog, |r.pending|, r.pendingStat + 1, nr);
  }

  lemma WtCommitStats(w: Side, b: Block, nr: nat)
    requires WtStats(w, nr) && SideCounted(w) && Total(WtCommit(w, b)) <= nr
    ensures WtStats(WtCommit(w, b), nr)
  {
    if w.submitCnt < WT_FIFO_DEPTH {
      LevelRises(w.fifoLog, w.fifo, |w.submit|, w.submitStat + 1, Depth(nr));
    } else {
      LevelRises(w.pendingLog, w.backlog, |w.pending|, w.pendingStat + 1, nr - WT_FIFO_DEPTH);
    }
  }

  lemma WtSubmitOneStats(w: Side, nr: nat)
    requires WtStats(w, nr) && SideCounted(w) && w.submitCnt < WT_FIFO_DEPTH && w.pending != [] && Total(w) <= nr
    ensures WtStats(WtSubmitOne(w), nr) && Total(WtSubmitOne(w)) == Total(w)
  {
    LevelRises(w.fifoLog, w.fifo, |w.submit|, w.submitStat + 1, Depth(nr));
  }

  lemma {:induction false} WtRefillStats(w: Side, nr: nat)
    requires WtStats(w, nr) && SideCounted(w) && Total(w) <= nr
    ensures WtStats(WtRefill(w), nr)
    decreases |w.pending|
  {
    if w.submitCnt < WT_FIFO_DEPTH && w.pending != [] {
      WtSubmitOneStats(w, nr);
      WtRefillStats(WtSubmitOne(w), nr);
    }
  }

  lemma {:induction false} WtCompleteStats(w: Side, n: nat, nr: nat)
    requires WtStats(w, nr) && n <= |w.submit|
    ensures WtStats(WtComplete(w, n), nr)
    decreases n
  {
    if n > 0 {
      WtCompleteStats(WtCompleteOne(w), n - 1, nr);
    }
  }

  lemma WtInterruptStats(w: Side, n: nat, nr: nat)
    requires WtStats(w, nr) && n <= |w.submit| && SideCounted(w) && Total(w) <= nr
    ensures WtStats(WtInterrupt(w, n), nr)
  {
    WtCompleteStats(w, n, nr);
    if n > 0 {
      WtCompleteMoves(w, n);
      WtRefillStats(WtComplete(w, n).(submitCnt := w.submitCnt - n), nr);
    }
  }

  /** A partitioned state's lists fit the pool. */
  lemma ListsFitPool(s: State, op: Op)
    requires Partition(s)
    ensures Total(SideOf(s, op)) <= PoolSize(s, op)
  {
    var side := SideOf(s, op);
    var bs := side.free + side.submit + side.pending;
    forall b: Block
      ensures Occurs(bs, b) <= if b < PoolSize(s, op) then 1 else 0
    {
      OccursConcat(side.free + side.submit, side.pending, b);
      OccursConcat(side.free, side.submit, b);
      assert Places(s, op, b) <= 1;
    }
    forall i | 0 <= i < |bs|
      ensures bs[i] < PoolSize(s, op)
    {
      assert bs[i] in bs && Occurs(bs, bs[i]) >= 1;
    }
    forall i, j | 0 <= i < j < |bs|
      ensures bs[i] != bs[j]
    {
      if bs[i] == bs[j] {
        TwiceOccurs(bs, i, j);
      }
    }
    Counting.DistinctAtMost(bs, PoolSize(s, op));
  }

  ghost predicate Stats(s: State)
  {
    RdStats(s.rd, s.rdNr) && WtStats(s.wt, s.wtNr)
  }

  lemma FinishKeepsStats(s: State, t: nat)
    requires Stats(s) && Inv(s) && Enabled(s, Finish(t)) && Inv(FinishBlock(s, t))
    ensures Stats(FinishBlock(s, t))
  {
    var q := FinishBlock(s, t);
    ListsFitPool(q, Read);
    ListsFitPool(q, Write);
    var b := s.threads[t].block;
    if s.threads[t].RdFailed? {
      RdPutBackStats(s.rd, b, s.rdNr);
    } else if s.threads[t].WtFilled? && s.enable {
      WtCommitStats(s.wt, b, s.wtNr);
    }
  }

  lemma RefillKeepsStats(s: State)
    requires Stats(s)
    ensures Stats(Refilled(s))
  {
    RdRefillStats(s.rd, s.rdNr);
  }

  predicate SameSides(s: State, q: State)
  {
    s.rd == q.rd && s.wt == q.wt && s.rdNr == q.rdNr && s.wtNr == q.wtNr
  }

  lemma SameSidesKeepStats(s: State, q: State)
    requires Stats(s) && SameSides(s, q)
    ensures Stats(q)
  {
  }

  /** The steps that touch no list. */
  lemma PlainStepKeepsSides(s: State, step: Step)
    requires Enabled(s, step)
    requires !step.Finish? && !step.Interrupt? && !step.Refill? && !step.StartRefill?
    requires !step.Try? && !step.Wake? && !step.InitLists?
    ensures SameSides(s, Apply(s, step))
  {
  }

  lemma RdTakeStats(r: Side, nr: nat)
    requires RdStats(r, nr) && r.pending != []
    ensures RdStats(RdTake(r), nr)
  {
  }

  lemma WtTakeStats(w: Side, nr: nat)
    requires WtStats(w, nr) && w.free != []
    ensures WtStats(WtTake(w), nr)
  {
  }

  lemma TakeKeepsStats(s: State, t: nat, op: Op, nonblock: bool)
    requires Stats(s) && t < |s.threads|
    ensures Stats(TakeOrWait(s, t, op, nonblock))
  {
    if op == Read && s.rd.pending != [] {
      RdTakeStats(s.rd, s.rdNr);
    }
    if op == Write && s.wt.free != [] {
      WtTakeStats(s.wt, s.wtNr);
    }
  }

  lemma AwakenKeepsStats(s: State, t: nat, signalled: bool)
    requires Stats(s) && t < |s.threads| && s.threads[t].Waiting?
    ensures Stats(Awaken(s, t, signalled))
  {
    TakeKeepsStats(s, t, s.threads[t].op, false);
  }

  lemma InitKeepsStats(s: State)
    ensures Stats(ListsInitialised(s))
  {
  }

  lemma StepKeepsStats(s: State, step: Step)
    requires Stats(s) && Inv(s) && Legal(s, step)
    ensures Stats(Apply(s, step))
  {
    match step
    case Finish(t) =>
      StepKeepsInv(s, step);
      FinishKeepsStats(s, t);
    case Refill(_) => RefillKeepsStats(s);
    case StartRefill => RefillKeepsStats(s);
    case Interrupt(rdData, wtCnt) =>
      if s.enable {
        InterruptKeepsStats(s, rdData, wtCnt);
      }
    case Try(t, nonblock) => TakeKeepsStats(s, t, s.threads[t].op, nonblock);
    case Wake(t, signalled) => AwakenKeepsStats(s, t, signalled);
    case InitLists => InitKeepsStats(s);
    case _ =>
      PlainStepKeepsSides(s, step);
      SameSidesKeepStats(s, Apply(s, step));
  }

  lemma InterruptKeepsStats(s: State, rdData: seq<Payload>, wtCnt: nat)
    requires Stats(s) && Partition(s) && Counted(s) && |rdData| <= |s.rd.submit| && wtCnt <= |s.wt.submit|
    ensures Stats(Interrupted(s, rdData, wtCnt))
  {
    ListsFitPool(s, Read);
    ListsFitPool(s, Write);
    RdInterruptStats(s.rd, |rdData|, s.rdNr);
    WtInterruptStats(s.wt, wtCnt, s.wtNr);
  }

  lemma {:induction false} RunKeepsStats(s: State, steps: seq<Step>)
    requires Stats(s) && Inv(s) && ValidRun(s, steps)
    ensures Stats(Run(s, steps))
    decreases |steps|
  {
    if steps != [] {
      StepKeepsStats(s, steps[0]);
      StepKeepsInv(s, steps[0]);
      RunKeepsStats(Apply(s, steps[0]), steps[1..]);
    }
  }

  /** What the histories of one direction are within, and that its backlog is at most the highest recorded. */
  ghost predicate Ranges(side: Side, nr: nat)
  {
    && Within(side.fifoLog, 0, RD_FIFO_DEPTH) && Within(side.pendingLog, 0, nr)
    && |side.pending| <= Highest(side.pendingLog)
  }

  lemma StatsInRange(s: State)
    requires Stats(s)
    ensures Ranges(s.rd, s.rdNr) && Ranges(s.wt, s.wtNr) && |s.wt.submit| <= Highest(s.wt.fifoLog)
  {
    RisesBounds(s.rd.pendingLog, |s.rd.pending|, s.rdNr, s.rdNr);
    RisesBounds(s.wt.pendingLog, |s.wt.pending|, s.wtNr - WT_FIFO_DEPTH, s.wtNr);
    RisesBounds(s.wt.fifoLog, |s.wt.submit|, Depth(s.wtNr), WT_FIFO_DEPTH);
  }

  /** In every reachable state the counters are the list lengths and the histories are in range. */
  lemma ReachableStats(s: State)
    requires Reachable(s)
    ensures Stats(s) && Ranges(s.rd, s.rdNr) && Ranges(s.wt, s.wtNr) && |s.wt.submit| <= Highest(s.wt.fifoLog)
  {
    var rdMem, wtMem, n, steps :|
      ValidRun(Initial(rdMem, wtMem, n), steps) && s == Run(Initial(rdMem, wtMem, n), steps);
    InitialInv(rdMem, wtMem, n);
    RunKeepsStats(Initial(rdMem, wtMem, n), steps);
    StatsInRange(s);
  }

  // ----- the report -----

  /** One tracked quantity as percentages of a capacity. */
  datatype Gauge = Gauge(extreme: nat, average: nat, current: nat)

  datatype Report = Report(
    rdFree: int, rdSubmit: int, rdPending: int, wtFree: int, wtSubmit: int, wtPending: int,
    rdFifo: Gauge, rdBacklog: Gauge, wtFifo: Gauge, wtBacklog: Gauge)

  function GaugeOf(extreme: int, average: int, current: int, capacity: nat): Gauge
    requires capacity > 0
  {
    Gauge(Percent(extreme, capacity), Percent(average, capacity), Percent(current, capacity))
  }

  /** The mean the driver reports: the current value while nothing is recorded. */
  function Mean(t: Tally, current: int): int
  {
    if t.cnt == 0 then current else t.total / t.cnt
  }

  function FifoGauge(side: Side): Gauge
  {
    GaugeOf(side.fifo.extreme, Mean(side.fifo, side.submitStat), side.submitStat, RD_FIFO_DEPTH)
  }

  function BacklogGauge(side: Side, nr: nat): Gauge
    requires nr > 0
  {
    GaugeOf(side.backlog.extreme, Mean(side.backlog, side.pendingStat), side.pendingStat, nr)
  }

  /** What pdma_get_stat reports. */
  function ReportOf(rd: Side, wt: Side, rdNr: nat, wtNr: nat): Report
    requires rdNr > 0 && wtNr > 0
  {
    Report(rd.freeStat, rd.submitStat, rd.pendingStat, wt.freeStat, wt.submitStat, wt.pendingStat,
           FifoGauge(rd), BacklogGauge(rd, rdNr), FifoGauge(wt), BacklogGauge(wt, wtNr))
  }

  /** Percentages within 0 to 100, and zero only for a zero quantity. */
  ghost predicate Sound(g: Gauge, extreme: int, average: int, current: int)
  {
    && g.extreme <= 100 && g.average <= 100 && g.current <= 100
    && (g.extreme == 0 <==> extreme == 0) && (g.average == 0 <==> average == 0) && (g.current == 0 <==> current == 0)
  }

  lemma GaugeSound(extreme: int, average: int, current: int, capacity: nat)
    requires 0 <= extreme <= capacity && 0 <= average <= capacity && 0 <= current <= capacity && 0 < capacity
    ensures Sound(GaugeOf(extreme, average, current, capacity), extreme, average, current)
  {
    PercentRange(extreme, capacity);
    PercentRange(average, capacity);
    PercentRange(current, capacity);
  }

  /** A history of highs: current value and mean never exceed the maximum, as counts and as percentages. */
  lemma HighGaugeOrdered(log: seq<int>, current: nat, capacity: nat)
    requires Within(log, 0, capacity) && current <= Highest(log) && capacity > 0
    ensures 0 <= Average(log, current) <= Highest(log) <= capacity
    ensures var g := GaugeOf(Highest(log), Average(log, current), current, capacity);
      && Sound(g, Highest(log), Average(log, current), current)
      && (capacity * 100 < TWO32 ==> g.average <= g.extreme && g.current <= g.extreme)
  {
    HighestBounds(log, capacity);
    AverageBelowHighest(log, current, capacity);
    GaugeSound(Highest(log), Average(log, current), current, capacity);
    if capacity * 100 < TWO32 {
      PercentMonotone(Average(log, current), Highest(log), capacity);
      PercentMonotone(current, Highest(log), capacity);
    }
  }

  lemma LowestWithin(log: seq<int>, capacity: nat)
    requires Within(log, 0, capacity)
    ensures 0 <= Lowest(log) <= capacity
  {
    LowestBounds(log, capacity);
    if log != [] {
      var i :| 0 <= i < |log| && log[i] == Lowest(log);
    }
  }

  /** The read FIFO's history of lows: the minimum never exceeds the mean. */
  lemma LowGaugeOrdered(log: seq<int>, current: nat, capacity: nat)
    requires Within(log, 0, capacity) && current <= capacity && 0 < capacity && capacity * 100 < TWO32
    ensures 0 <= Lowest(log) <= Average(log, current) <= capacity
    ensures var g := GaugeOf(Lowest(log), Average(log, current), current, capacity);
      Sound(g, Lowest(log), Average(log, current), current) && g.extreme <= g.average
  {
    LowestWithin(log, capacity);
    AverageAboveLowest(log, current, capacity);
    GaugeSound(Lowest(log), Average(log, current), current, capacity);
    PercentMonotone(Lowest(log), Average(log, current), capacity);
  }

  lemma ReachableBounds(s: State)
    requires Reachable(s)
    ensures |s.rd.submit| <= RD_FIFO_DEPTH && |s.wt.submit| <= WT_FIFO_DEPTH
    ensures Total(s.rd) <= s.rdNr && Total(s.wt) <= s.wtNr
  {
    ReachableInv(s);
    ListsFitPool(s, Read);
    ListsFitPool(s, Write);
  }

  /** A gauge shows an extreme, a mean and a current value as percentages. */
  ghost predicate Shows(g: Gauge, extreme: int, average: int, current: int, capacity: nat)
  {
    && Sound(g, extreme, average, current)
    && (capacity * 100 < TWO32 ==>
          IsPercent(g.extreme, extreme, capacity) && IsPercent(g.average, average, capacity)
          && IsPercent(g.current, current, capacity))
  }

  lemma GaugeShows(extreme: int, average: int, current: int, capacity: nat)
    requires 0 <= extreme <= capacity && 0 <= average <= capacity && 0 <= current <= capacity && 0 < capacity
    ensures Shows(GaugeOf(extreme, average, current, capacity), extreme, average, current, capacity)
  {
    GaugeSound(extreme, average, current, capacity);
    if capacity * 100 < TWO32 {
      PercentIs(extreme, capacity);
      PercentIs(average, capacity);
      PercentIs(current, capacity);
    }
  }

  /** A gauge of a quantity with a maximum shows it, and orders its percentages. */
  ghost predicate ShowsHigh(g: Gauge, log: seq<int>, current: nat, capacity: nat)
  {
    && Shows(g, Highest(log), Average(log, current), current, capacity)
    && (capacity * 100 < TWO32 ==> g.average <= g.extreme && g.current <= g.extreme)
  }

  lemma HighGaugeShows(log: seq<int>, current: nat, capacity: nat, g: Gauge)
    requires Within(log, 0, capacity) && current <= Highest(log) && capacity > 0
    requires g == GaugeOf(Highest(log), Average(log, current), current, capacity)
    ensures ShowsHigh(g, log, current, capacity)
  {
    HighGaugeOrdered(log, current, capacity);
    GaugeShows(Highest(log), Average(log, current), current, capacity);
  }

  lemma LowGaugeShows(log: seq<int>, current: nat, capacity: nat, g: Gauge)
    requires Within(log, 0, capacity) && current <= capacity && 0 < capacity && capacity * 100 < TWO32
    requires g == GaugeOf(Lowest(log), Average(log, current), current, capacity)
    ensures Shows(g, Lowest(log), Average(log, current), current, capacity) && g.extreme <= g.average
  {
    LowGaugeOrdered(log, current, capacity);
    GaugeShows(Lowest(log), Average(log, current), current, capacity);
  }

  /** The mean is rounded down. */
  lemma AverageIs(log: seq<int>, current: int)
    ensures if log == [] then Average(log, current) == current
      else |log| * Average(log, current) <= Sum(log) < |log| * (Average(log, current) + 1)
  {
    if log != [] {
      var q := Sum(log) / |log|;
      assert Sum(log) == q * |log| + Sum(log) % |log|;
    }
  }

  /**
   In every reachable state the reported counts are the list lengths, and each gauge of the report shows its own
   quantity: the extreme, mean and current value of its history as percentages, with the extreme bounding the others.
   */
  lemma ReportSound(s: State)
    requires Reachable(s) && s.rdNr > 0 && s.wtNr > 0
    ensures var r := ReportOf(s.rd, s.wt, s.rdNr, s.wtNr);
      && r.rdFree == |s.rd.free| && r.rdSubmit == |s.rd.submit| && r.rdPending == |s.rd.pending|
      && r.wtFree == |s.wt.free| && r.wtSubmit == |s.wt.submit| && r.wtPending == |s.wt.pending|
    ensures var r, level := ReportOf(s.rd, s.wt, s.rdNr, s.wtNr), |s.rd.submit|;
      && Shows(r.rdFifo, Lowest(s.rd.fifoLog), Average(s.rd.fifoLog, level), level, RD_FIFO_DEPTH)
      && r.rdFifo.extreme <= r.rdFifo.average
    ensures var r := ReportOf(s.rd, s.wt, s.rdNr, s.wtNr);
      && ShowsHigh(r.wtFifo, s.wt.fifoLog, |s.wt.submit|, WT_FIFO_DEPTH)
      && ShowsHigh(r.rdBacklog, s.rd.pendingLog, |s.rd.pending|, s.rdNr)
      && ShowsHigh(r.wtBacklog, s.wt.pendingLog, |s.wt.pending|, s.wtNr)
  {
    ReachableStats(s);
    ReachableBounds(s);
    var r := ReportOf(s.rd, s.wt, s.rdNr, s.wtNr);
    LowGaugeShows(s.rd.fifoLog, |s.rd.submit|, RD_FIFO_DEPTH, r.rdFifo);
    HighGaugeShows(s.wt.fifoLog, |s.wt.submit|, WT_FIFO_DEPTH, r.wtFifo);
    HighGaugeShows(s.rd.pendingLog, |s.rd.pending|, s.rdNr, r.rdBacklog);
    HighGaugeShows(s.wt.pendingLog, |s.wt.pending|, s.wtNr, r.wtBacklog);
  }

  /** As counts: a tracked maximum bounds its mean and current value, and fits the capacity. */
  predicate MaximumBounds(t: Tally, current: int, capacity: nat)
  {
    0 <= Mean(t, current) <= t.extreme <= capacity && 0 <= current <= t.extreme
  }

  lemma HighTallyBounds(log: seq<int>, current: nat, capacity: nat)
    requires Within(log, 0, capacity) && current <= Highest(log) && capacity > 0
    ensures MaximumBounds(HighTally(log), current, capacity)
  {
    HighGaugeOrdered(log, current, capacity);
  }

  lemma LowTallyBounds(log: seq<int>, current: nat, capacity: nat)
    requires Within(log, 0, capacity) && current <= capacity
    ensures LowTally(log).extreme <= Mean(LowTally(log), current) <= capacity
  {
    AverageAboveLowest(log, current, capacity);
  }

  /** In every reachable state and for any pool sizes: minimum at most mean, maximum at least mean and current value. */
  lemma CountsOrdered(s: State)
    requires Reachable(s) && s.rdNr > 0 && s.wtNr > 0
    ensures s.rd.fifo.extreme <= Mean(s.rd.fifo, s.rd.submitStat) <= RD_FIFO_DEPTH
    ensures MaximumBounds(s.wt.fifo, s.wt.submitStat, WT_FIFO_DEPTH)
    ensures MaximumBounds(s.rd.backlog, s.rd.pendingStat, s.rdNr)
    ensures MaximumBounds(s.wt.backlog, s.wt.pendingStat, s.wtNr)
  {
    ReachableStats(s);
    ReachableBounds(s);
    LowTallyBounds(s.rd.fifoLog, |s.rd.submit|, RD_FIFO_DEPTH);
    HighTallyBounds(s.wt.fifoLog, |s.wt.submit|, WT_FIFO_DEPTH);
    HighTallyBounds(s.rd.pendingLog, |s.rd.pending|, s.rdNr);
    HighTallyBounds(s.wt.pendingLog, |s.wt.pending|, s.wtNr);
  }
}
