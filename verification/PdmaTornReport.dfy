/**
 The statistics report read while it changes (pdma-v1.1-src/pdma-dev.c): an update adds a value to the total, then
 counts it, then compares it with the extreme, and pdma_get_stat reads total, count and extreme in that order without
 the lock. For every tracked quantity, pool and moments of the three reads: exactly when in a reachable state the mean
 can leave the capacity or pass the extreme read.
 */
module PdmaTornReport {
  import opened PdmaLists
  import opened PdmaProtocol
  import opened PdmaInvariants
  import opened PdmaTheorems
  import opened PdmaStats
  import opened PdmaHistories
  import opened Words

  // ----- the words in memory -----

  /** Whether the extreme kept is the maximum or, for the read FIFO, the minimum. */
  datatype Kind = High | Low

  /** The words after the first n memory accesses of the updates that record a history. */
  function WordsAfter(kind: Kind, log: seq<int>, n: nat): Tally
    requires n <= 3 * |log|
  {
    if n == 0 then NO_TALLY
    else
      var t, v := WordsAfter(kind, log, n - 1), log[(n - 1) / 3];
      match (n - 1) % 3
      case 0 => t.(total := t.total + v)
      case 1 => t.(cnt := t.cnt + 1)
      case _ =>
        var replaced := if kind == High then v > t.extreme else v < t.extreme || t.cnt == 1;
        t.(extreme := if replaced then v else t.extreme)
  }

  function Extreme(kind: Kind, log: seq<int>): int
  {
    if kind == High then Highest(log) else Lowest(log)
  }

  lemma PrefixStep(kind: Kind, log: seq<int>, n: nat)
    requires n < |log|
    ensures Sum(log[..n + 1]) == Sum(log[..n]) + log[n]
    ensures Highest(log[..n + 1]) == if log[n] > Highest(log[..n]) then log[n] else Highest(log[..n])
    ensures Lowest(log[..n + 1]) == if n == 0 || log[n] < Lowest(log[..n]) then log[n] else Lowest(log[..n])
  {
    assert log[..n + 1][..n] == log[..n];
  }

  function Summary(kind: Kind, log: seq<int>, n: nat): Tally
    requires n <= 3 * |log|
  {
    Tally(Sum(log[..(n + 2) / 3]), (n + 1) / 3, Extreme(kind, log[..n / 3]))
  }

  lemma SummaryStep(kind: Kind, log: seq<int>, q: nat, n: nat)
    requires q < |log| && n <= 3 * |log| && 3 * q < n <= 3 * q + 3
    requires WordsAfter(kind, log, n - 1) == Summary(kind, log, n - 1)
    ensures WordsAfter(kind, log, n) == Summary(kind, log, n)
  {
    PrefixStep(kind, log, q);
    if n == 3 * q + 1 {
      assert (n - 1) % 3 == 0 && (n + 2) / 3 == q + 1;
    } else if n == 3 * q + 2 {
      assert (n - 1) % 3 == 1 && (n + 2) / 3 == q + 1 && (n + 1) / 3 == q + 1;
    } else {
      assert (n - 1) % 3 == 2 && (n + 2) / 3 == q + 1 && (n + 1) / 3 == q + 1;
    }
  }

  /** After any number of accesses the words summarise prefixes of the history: the total leads, the extreme is last. */
  lemma {:induction false} WordsSummarise(kind: Kind, log: seq<int>, n: nat)
    requires n <= 3 * |log|
    ensures WordsAfter(kind, log, n) == Summary(kind, log, n)
  {
    if n > 0 {
      WordsSummarise(kind, log, n - 1);
      SummaryStep(kind, log, (n - 1) / 3, n);
    }
  }

  /** After all of them they are the tally the driver's operations compute. */
  lemma WordsEndAsTally(kind: Kind, log: seq<int>)
    ensures WordsAfter(kind, log, 3 * |log|) == if kind == High then HighTally(log) else LowTally(log)
  {
    WordsSummarise(kind, log, 3 * |log|);
    assert log[..|log|] == log;
  }

  // ----- one reading -----

  /** The reader's three moments, counted in accesses of the updates. */
  datatype Moments = Moments(total: nat, cnt: nat, extreme: nat) {
    predicate Ordered()
    {
      total <= cnt <= extreme
    }

    /** How many values the total read has in it, how many the count, and how many the extreme. */
    function Seen(): nat { (total + 2) / 3 }
    function Counted(): nat { (cnt + 1) / 3 }
    function Compared(): nat { extreme / 3 }
  }

  function MeanRead(kind: Kind, log: seq<int>, m: Moments, current: int): int
    requires m.Ordered() && m.cnt <= 3 * |log|
  {
    Mean(Tally(WordsAfter(kind, log, m.total).total, WordsAfter(kind, log, m.cnt).cnt, 0), current)
  }

  function ExtremeRead(kind: Kind, log: seq<int>, m: Moments): int
    requires m.extreme <= 3 * |log|
  {
    WordsAfter(kind, log, m.extreme).extreme
  }

  lemma PrefixLengths(m: Moments, n: nat)
    requires m.Ordered() && m.cnt <= 3 * n
    ensures m.Seen() <= m.Counted() + 1 && m.Counted() <= m.Compared() + 1 && m.Seen() <= m.Compared() + 1
    ensures m.Seen() <= n && m.Counted() <= n
    ensures m.extreme <= 3 * n ==> m.Compared() <= n
  {
  }

  lemma TotalAfter(kind: Kind, log: seq<int>, n: nat, seen: nat)
    requires n <= 3 * |log| && seen == (n + 2) / 3
    ensures seen <= |log| && WordsAfter(kind, log, n).total == Sum(log[..seen])
  {
    WordsSummarise(kind, log, n);
  }

  lemma CountAfter(kind: Kind, log: seq<int>, n: nat, counted: nat)
    requires n <= 3 * |log| && counted == (n + 1) / 3
    ensures WordsAfter(kind, log, n).cnt == counted
  {
    WordsSummarise(kind, log, n);
  }

  lemma MeanReadIs(kind: Kind, log: seq<int>, m: Moments, current: int)
    requires m.Ordered() && m.cnt <= 3 * |log|
    ensures m.Seen() <= m.Counted() + 1 && m.Seen() <= |log| && m.Counted() <= |log|
    ensures MeanRead(kind, log, m, current)
      == if m.Counted() == 0 then current else Sum(log[..m.Seen()]) / m.Counted()
  {
    PrefixLengths(m, |log|);
    TotalAfter(kind, log, m.total, m.Seen());
    CountAfter(kind, log, m.cnt, m.Counted());
  }

  lemma ExtremeReadIs(kind: Kind, log: seq<int>, m: Moments)
    requires m.Ordered() && m.extreme <= 3 * |log|
    ensures m.Compared() <= |log| && m.Counted() <= m.Compared() + 1 && m.Seen() <= m.Compared() + 1
    ensures ExtremeRead(kind, log, m) == Extreme(kind, log[..m.Compared()])
  {
    PrefixLengths(m, |log|);
    WordsSummarise(kind, log, m.extreme);
  }

  /** The reader took the total after a value was added to it, and the count before that value was counted. */
  predicate BetweenAddAndCount(m: Moments)
  {
    m.total % 3 == 1 && m.cnt == m.total
  }

  lemma ShortIff(m: Moments)
    requires m.Ordered()
    ensures m.Seen() > m.Counted() <==> BetweenAddAndCount(m)
  {
  }

  // ----- sums -----

  lemma WithinPrefix(log: seq<int>, n: nat, lo: int, hi: int)
    requires Within(log, lo, hi) && n <= |log|
    ensures Within(log[..n], lo, hi)
  {
  }

  lemma PrefixBounds(log: seq<int>, n: nat, hi: nat)
    requires Within(log, 0, hi) && n <= |log|
    ensures n * Lowest(log[..n]) <= Sum(log[..n]) <= n * Highest(log[..n])
    ensures 0 <= Lowest(log[..n]) <= hi && 0 <= Highest(log[..n]) <= hi && 0 <= Sum(log[..n]) <= n * hi
  {
    WithinPrefix(log, n, 0, hi);
    HighestBounds(log[..n], hi);
    LowestWithin(log[..n], hi);
    LowestBounds(log[..n], hi);
    MulMonotone(n, Highest(log[..n]), hi);
    MulMonotone(n, 0, Lowest(log[..n]));
  }

  lemma {:induction false} SumGrows(log: seq<int>, m: nat, n: nat)
    requires m <= n <= |log| && (forall i | 0 <= i < |log| :: log[i] >= 0)
    ensures Sum(log[..m]) <= Sum(log[..n])
    decreases n
  {
    if m < n {
      SumGrows(log, m, n - 1);
      PrefixStep(High, log, n - 1);
    }
  }

  /** A longer prefix has no smaller maximum and no larger minimum. */
  lemma {:induction false} ExtremesSpread(log: seq<int>, m: nat, n: nat)
    requires m <= n <= |log|
    ensures m > 0 ==> Lowest(log[..n]) <= Lowest(log[..m])
    ensures Highest(log[..m]) <= Highest(log[..n])
    decreases n
  {
    if m < n {
      ExtremesSpread(log, m, n - 1);
      PrefixStep(High, log, n - 1);
    }
  }

  lemma QuotientBelow(sum: int, n: nat, hi: int)
    requires n > 0 && sum < n * (hi + 1)
    ensures sum / n <= hi
  {
    if sum / n > hi {
      MulMonotone(n, hi + 1, sum / n);
    }
  }

  /** One more value of a rising history whose maximum was h, in twice the sum with h (h - 1). */
  lemma OneHigher(n: nat, sum: int, h: nat, v: int)
    requires h <= n && v <= h + 1 && 2 * sum + h * (h - 1) <= 2 * n * h
    ensures var t := if v > h then v else h;
      2 * (sum + v) + t * (t - 1) <= 2 * (n + 1) * t
  {
    if v > h {
      assert (h + 1) * h == h * (h - 1) + 2 * h;
      assert 2 * (n + 1) * (h + 1) == 2 * n * h + 2 * n + 2 * h + 2;
    } else {
      assert 2 * (n + 1) * h == 2 * n * h + 2 * h;
    }
  }

  /** A rising history passes every value below its maximum, which keeps its sum down. */
  lemma {:induction false} RisingSum(log: seq<int>, top: int, n: nat)
    requires Rising(log, top) && n <= |log|
    ensures var h := Highest(log[..n]);
      && (if n == 0 then h == 0 else 1 <= h <= top && log[n - 1] <= h) && h <= n
      && 2 * Sum(log[..n]) + h * (h - 1) <= 2 * n * h && n <= Sum(log[..n])
  {
    if n > 0 {
      RisingSum(log, top, n - 1);
      PrefixStep(High, log, n - 1);
      assert RisesAt(log, n - 1, top);
      OneHigher(n - 1, Sum(log[..n - 1]), Highest(log[..n - 1]), log[n - 1]);
    }
  }

  lemma {:induction false} RepeatedPrefix(v: nat, n: nat, more: seq<int>, len: nat)
    requires len <= n
    ensures var log := (Repeated(v, n) + more)[..len];
      Sum(log) == len * v && (len > 0 ==> Lowest(log) == Highest(log) == v)
  {
    if len > 0 {
      RepeatedPrefix(v, n, more, len - 1);
      PrefixStep(High, Repeated(v, n) + more, len - 1);
      assert (len - 1) * v + v == len * v;
    }
  }

  lemma RepeatedWhole(v: nat, n: nat, len: nat)
    requires len <= n
    ensures var log := Repeated(v, n)[..len];
      Sum(log) == len * v && (len > 0 ==> Lowest(log) == Highest(log) == v)
  {
    RepeatedPrefix(v, n, [], len);
    assert Repeated(v, n) + [] == Repeated(v, n);
  }

  lemma OnesRise(n: nat, top: int)
    requires top >= 1
    ensures Rising(Repeated(1, n), top)
  {
  }

  // ----- the mean against the capacity -----

  function KindOf(meter: Meter): Kind
  {
    if meter.RdFifo? then Low else High
  }

  /** What the percentages are of. */
  function Capacity(meter: Meter, nr: nat): nat
  {
    if meter.RdFifo? || meter.WtFifo? then RD_FIFO_DEPTH else nr
  }

  /** One value too many is in the total, and too few have been counted to make up for it. */
  predicate MeanLeaves(meter: Meter, nr: nat, m: Moments)
  {
    BetweenAddAndCount(m) && m.Counted() > 0 &&
    match meter
    case RdFifo => nr > 0 && m.Counted() * (RD_FIFO_DEPTH + 1 - Top(meter, nr)) <= Top(meter, nr)
    case RdBacklog => (nr == 1 || nr == 2) && m.Counted() == 1
    case _ => false
  }

  lemma FallingMean(sum: int, seen: nat, n: nat, v: nat, capacity: nat)
    requires n > 0 && seen <= n + 1 && 0 <= sum <= seen * v && v <= capacity
    requires seen <= n || n * (capacity + 1 - v) > v
    ensures sum / n <= capacity
  {
    if seen <= n {
      MulMonotone(v, seen, n);
      MulMonotone(n, v, capacity);
      QuotientAtMost(sum, n, capacity);
    } else {
      assert (n + 1) * v == n * v + v;
      assert n * (capacity + 1 - v) == n * (capacity + 1) - n * v;
      QuotientBelow(sum, n, capacity);
    }
  }

  lemma FallingExceeds(n: nat, v: nat, capacity: nat)
    requires n > 0 && v <= capacity && n * (capacity + 1 - v) <= v
    ensures (n + 1) * v / n > capacity
  {
    assert (n + 1) * v == n * v + v;
    assert n * (capacity + 1 - v) == n * (capacity + 1) - n * v;
    QuotientAtLeast((n + 1) * v, n, capacity + 1);
  }

  lemma Triangle(h: nat)
    ensures h * (h - 1) >= 0 && (h >= 3 ==> h * (h - 1) >= 2 * h)
  {
    if h >= 3 {
      MulMonotone(h, 2, h - 1);
    }
  }

  /** The mean of a rising history with at most one value too many. */
  lemma RisingMean(sum: int, seen: nat, n: nat, h: nat)
    requires n > 0 && seen <= n + 1 && 2 * sum + h * (h - 1) <= 2 * seen * h
    requires seen <= n || n >= 2
    ensures sum / n <= h
  {
    Triangle(h);
    if seen <= n {
      MulMonotone(h, seen, n);
      QuotientAtMost(sum, n, h);
    } else {
      assert 2 * (n + 1) * h == 2 * n * h + 2 * h;
      assert n * (h + 1) == n * h + n;
      QuotientBelow(sum, n, h);
    }
  }

  lemma RisingMeanWithin(log: seq<int>, top: int, m: Moments, current: int, capacity: nat)
    requires Rising(log, top) && top <= capacity && m.Ordered() && m.cnt <= 3 * |log| && m.Counted() > 0
    requires BetweenAddAndCount(m) && m.Counted() == 1 ==> capacity >= 3
    ensures MeanRead(High, log, m, current) <= capacity
  {
    var seen := m.Seen();
    MeanReadIs(High, log, m, current);
    RisingSum(log, top, seen);
    ShortIff(m);
    var h := Highest(log[..seen]);
    if seen <= m.Counted() || m.Counted() >= 2 {
      RisingMean(Sum(log[..seen]), seen, m.Counted(), h);
    } else {
      assert h == 1 || h == 2;
      QuotientAtMost(Sum(log[..seen]), 1, 3);
    }
  }

  lemma FallingMeanWithin(log: seq<int>, top: nat, m: Moments, current: int, capacity: nat)
    requires Within(log, 0, top) && top <= capacity && m.Ordered() && m.cnt <= 3 * |log| && m.Counted() > 0
    requires m.Seen() <= m.Counted() || m.Counted() * (capacity + 1 - top) > top
    ensures MeanRead(Low, log, m, current) <= capacity
  {
    MeanReadIs(Low, log, m, current);
    PrefixBounds(log, m.Seen(), top);
    FallingMean(Sum(log[..m.Seen()]), m.Seen(), m.Counted(), top, capacity);
  }

  lemma MeanWithin(s: State, meter: Meter, m: Moments, current: int)
    requires Reachable(s) && m.Ordered() && m.cnt <= 3 * |LogOf(s, meter)| && m.Counted() > 0
    requires !MeanLeaves(meter, PoolOf(s, meter), m)
    ensures MeanRead(KindOf(meter), LogOf(s, meter), m, current) <= Capacity(meter, PoolOf(s, meter))
  {
    var log, nr := LogOf(s, meter), PoolOf(s, meter);
    HistoryRises(s, meter);
    PrefixLengths(m, |log|);
    if meter.RdFifo? {
      assert 0 <= log[0] <= Top(meter, nr);
      ShortIff(m);
      FallingMeanWithin(log, Top(meter, nr), m, current, RD_FIFO_DEPTH);
    } else {
      assert RisesAt(log, 0, Top(meter, nr));
      RisingMeanWithin(log, Top(meter, nr), m, current, Capacity(meter, nr));
    }
  }

  lemma ReadFifoExceeds(nr: nat, m: Moments, current: int) returns (s: State)
    requires m.Ordered() && MeanLeaves(RdFifo, nr, m)
    ensures Reachable(s) && s.rdNr == nr && m.cnt <= 3 * |s.rd.fifoLog|
    ensures MeanRead(Low, s.rd.fifoLog, m, current) > RD_FIFO_DEPTH
  {
    var v := Depth(nr) - 1;
    s := RdFifoHistory(m.cnt, nr);
    MeanReadIs(Low, s.rd.fifoLog, m, current);
    ShortIff(m);
    RepeatedWhole(v, m.cnt, m.Seen());
    FallingExceeds(m.Counted(), v, RD_FIFO_DEPTH);
  }

  lemma ReadBacklogExceeds(nr: nat, m: Moments, current: int) returns (s: State)
    requires m.Ordered() && MeanLeaves(RdBacklog, nr, m)
    ensures Reachable(s) && s.rdNr == nr && m.cnt <= 3 * |s.rd.pendingLog|
    ensures MeanRead(High, s.rd.pendingLog, m, current) > nr
  {
    var log := [1, nr];
    assert Rising(log, nr);
    s := RdBacklogHistory(log, nr);
    MeanReadIs(High, log, m, current);
    ShortIff(m);
    PrefixStep(High, log, 0);
    PrefixStep(High, log, 1);
  }

  /**
   For each tracked quantity, pool and reading: the mean is within the capacity in all reachable states exactly if the
   reader did not come between the two updates of one value, or that value cannot make up the difference. For the write
   FIFO and the write backlog, and for the read backlog of three blocks or more, it never can.
   */
  lemma MeanWithinIff(meter: Meter, nr: nat, m: Moments, current: int)
    requires m.Ordered() && m.Counted() > 0
    ensures (forall s | Reachable(s) && PoolOf(s, meter) == nr && m.cnt <= 3 * |LogOf(s, meter)| ::
               MeanRead(KindOf(meter), LogOf(s, meter), m, current) <= Capacity(meter, nr))
      <==> !MeanLeaves(meter, nr, m)
  {
    if !MeanLeaves(meter, nr, m) {
      forall s | Reachable(s) && PoolOf(s, meter) == nr && m.cnt <= 3 * |LogOf(s, meter)|
        ensures MeanRead(KindOf(meter), LogOf(s, meter), m, current) <= Capacity(meter, nr)
      {
        MeanWithin(s, meter, m, current);
      }
    } else if meter.RdFifo? {
      var s := ReadFifoExceeds(nr, m, current);
      assert PoolOf(s, meter) == nr && LogOf(s, meter) == s.rd.fifoLog;
    } else {
      var s := ReadBacklogExceeds(nr, m, current);
      assert PoolOf(s, meter) == nr && LogOf(s, meter) == s.rd.pendingLog;
    }
  }

  /** With a pool of some size the read FIFO's mean can leave the capacity exactly until 64 values are counted. */
  lemma ReadFifoAnyPool(m: Moments)
    requires m.Ordered() && m.Counted() > 0
    ensures (exists nr :: MeanLeaves(RdFifo, nr, m)) <==> BetweenAddAndCount(m) && m.Counted() <= 63
  {
    if BetweenAddAndCount(m) && m.Counted() <= 63 {
      assert MeanLeaves(RdFifo, 128, m);
    }
    forall nr | MeanLeaves(RdFifo, nr, m)
      ensures m.Counted() <= 63
    {
      MulMonotone(m.Counted(), 2, RD_FIFO_DEPTH + 1 - Top(RdFifo, nr));
    }
  }

  // ----- the mean against the maximum -----

  /** Every value in the total had been counted and compared by the time count and maximum were read. */
  predicate TotalSettled(m: Moments)
  {
    m.Seen() <= m.Counted() && m.Seen() <= m.Compared()
  }

  /** A value neither settled nor outweighed by those before it. */
  predicate MeanPasses(top: int, m: Moments)
  {
    && !TotalSettled(m) && top >= 1
    && (m.Counted() == 1 || (m.Counted() == 2 && m.Seen() == 3 && m.Compared() == 2 && top >= 2))
  }

  /** The value added last is compared only later. */
  lemma RisingMeanOneLater(sum: int, n: nat, before: nat, h: nat, v: int)
    requires 0 < before <= n <= before + 1 && 1 <= h && 2 * sum + h * (h - 1) <= 2 * before * h && v <= h + 1
    requires if n == before then n >= 3 || (v <= h == 1 && n >= 2) else n >= 2
    ensures (sum + v) / n <= h
  {
    assert n * (h + 1) == n * h + n;
    Triangle(h);
    if n == before + 1 {
      assert 2 * n * h == 2 * before * h + 2 * h;
    }
    QuotientBelow(sum + v, n, h);
  }

  lemma OneLater(log: seq<int>, top: int, n: nat, before: nat)
    requires Rising(log, top) && before < |log| && 0 < before <= n <= before + 1
    requires if n == before then n >= 3 || (n >= 2 && top == 1) else n >= 2
    ensures Sum(log[..before + 1]) / n <= Highest(log[..before])
  {
    RisingSum(log, top, before);
    PrefixStep(High, log, before);
    assert RisesAt(log, before, top);
    RisingMeanOneLater(Sum(log[..before]), n, before, Highest(log[..before]), log[before]);
  }

  lemma MeanBelowHighest(log: seq<int>, top: int, m: Moments, current: int)
    requires Rising(log, top) && m.Ordered() && m.extreme <= 3 * |log| && m.Counted() > 0 && !MeanPasses(top, m)
    ensures MeanRead(High, log, m, current) <= ExtremeRead(High, log, m)
  {
    var seen, n, compared := m.Seen(), m.Counted(), m.Compared();
    MeanReadIs(High, log, m, current);
    ExtremeReadIs(High, log, m);
    assert RisesAt(log, 0, top);
    RisingSum(log, top, seen);
    if seen <= compared {
      ExtremesSpread(log, seen, compared);
      RisingMean(Sum(log[..seen]), seen, n, Highest(log[..seen]));
    } else {
      OneLater(log, top, n, compared);
    }
  }

  lemma OnesPassHighest(len: nat, m: Moments, current: int)
    requires m.Ordered() && m.extreme <= 3 * len && m.Counted() == 1 && !TotalSettled(m)
    ensures MeanRead(High, Repeated(1, len), m, current) > ExtremeRead(High, Repeated(1, len), m)
  {
    MeanReadIs(High, Repeated(1, len), m, current);
    ExtremeReadIs(High, Repeated(1, len), m);
    RepeatedWhole(1, len, m.Seen());
    RepeatedWhole(1, len, m.Compared());
  }

  lemma StepPassesHighest(m: Moments, current: int)
    requires m.Ordered() && m.Counted() == 2 && m.Seen() == 3 && m.Compared() == 2
    ensures m.extreme <= 9 && MeanRead(High, [1, 1, 2], m, current) > ExtremeRead(High, [1, 1, 2], m)
  {
    var log := [1, 1, 2];
    MeanReadIs(High, log, m, current);
    ExtremeReadIs(High, log, m);
    PrefixStep(High, log, 0);
    PrefixStep(High, log, 1);
    PrefixStep(High, log, 2);
  }

  lemma MeanPassesHighest(meter: Meter, nr: nat, m: Moments, current: int) returns (s: State)
    requires !meter.RdFifo? && m.Ordered() && MeanPasses(Top(meter, nr), m)
    ensures Reachable(s) && PoolOf(s, meter) == nr && m.extreme <= 3 * |LogOf(s, meter)|
    ensures MeanRead(High, LogOf(s, meter), m, current) > ExtremeRead(High, LogOf(s, meter), m)
  {
    if m.Counted() == 1 {
      OnesRise(m.extreme, Top(meter, nr));
      s := HistoryOf(meter, Repeated(1, m.extreme), nr);
      OnesPassHighest(m.extreme, m, current);
    } else {
      assert Rising([1, 1, 2], Top(meter, nr));
      s := HistoryOf(meter, [1, 1, 2], nr);
      StepPassesHighest(m, current);
    }
  }

  /**
   For each quantity with a maximum, pool and reading: the mean is at most the maximum read in all reachable states
   exactly if every value in the total was settled, or three values were counted, or two and the rest was settled.
   */
  lemma MeanBelowHighestIff(meter: Meter, nr: nat, m: Moments, current: int)
    requires !meter.RdFifo? && m.Ordered() && m.Counted() > 0
    ensures (forall s | Reachable(s) && PoolOf(s, meter) == nr && m.extreme <= 3 * |LogOf(s, meter)| ::
               MeanRead(High, LogOf(s, meter), m, current) <= ExtremeRead(High, LogOf(s, meter), m))
      <==> !MeanPasses(Top(meter, nr), m)
  {
    if !MeanPasses(Top(meter, nr), m) {
      forall s | Reachable(s) && PoolOf(s, meter) == nr && m.extreme <= 3 * |LogOf(s, meter)|
        ensures MeanRead(High, LogOf(s, meter), m, current) <= ExtremeRead(High, LogOf(s, meter), m)
      {
        HistoryRises(s, meter);
        MeanBelowHighest(LogOf(s, meter), Top(meter, nr), m, current);
      }
    } else {
      var s := MeanPassesHighest(meter, nr, m, current);
    }
  }

  // ----- the mean against the minimum -----

  /** Every value counted was in the total, and had been compared when the minimum was read. */
  predicate CountSettled(m: Moments)
  {
    m.Counted() <= m.Seen() && m.Counted() <= m.Compared()
  }

  lemma MeanAboveLowest(log: seq<int>, m: Moments, current: int, top: nat)
    requires Within(log, 0, top) && m.Ordered() && m.extreme <= 3 * |log| && m.Counted() > 0
    requires top == 0 || m.Compared() == 0 || CountSettled(m)
    ensures ExtremeRead(Low, log, m) <= MeanRead(Low, log, m, current)
  {
    MeanReadIs(Low, log, m, current);
    ExtremeReadIs(Low, log, m);
    PrefixBounds(log, m.Seen(), top);
    PrefixBounds(log, m.Compared(), top);
    if CountSettled(m) && m.Compared() > 0 {
      PrefixBounds(log, m.Counted(), top);
      SumGrows(log, m.Counted(), m.Seen());
      ExtremesSpread(log, m.Counted(), m.Compared());
      MulMonotone(m.Counted(), Lowest(log[..m.Compared()]), Lowest(log[..m.Counted()]));
      QuotientAtLeast(Sum(log[..m.Seen()]), m.Counted(), Lowest(log[..m.Compared()]));
    } else {
      QuotientAtLeast(Sum(log[..m.Seen()]), m.Counted(), 0);
    }
  }

  lemma FewerOf(sum: int, v: nat, counted: nat)
    requires counted > 0 && sum < counted * v
    ensures sum / counted < v
  {
    QuotientBelow(sum, counted, v - 1);
  }

  lemma UncountedPassesLowest(nr: nat, m: Moments, current: int) returns (s: State)
    requires nr > 1 && m.Ordered() && m.Compared() > 0 && m.Counted() > m.Seen()
    ensures Reachable(s) && s.rdNr == nr && m.extreme <= 3 * |s.rd.fifoLog|
    ensures ExtremeRead(Low, s.rd.fifoLog, m) > MeanRead(Low, s.rd.fifoLog, m, current)
  {
    var v := Depth(nr) - 1;
    s := RdFifoHistory(m.extreme, nr);
    MeanReadIs(Low, s.rd.fifoLog, m, current);
    ExtremeReadIs(Low, s.rd.fifoLog, m);
    RepeatedWhole(v, m.extreme, m.Seen());
    RepeatedWhole(v, m.extreme, m.Compared());
    FewerTimes(m.Seen(), v, m.Counted());
  }

  lemma FewerTimes(seen: nat, v: nat, counted: nat)
    requires seen < counted && v > 0
    ensures seen * v / counted < v
  {
    MulMonotone(v, seen + 1, counted);
    assert (seen + 1) * v == seen * v + v;
    FewerOf(seen * v, v, counted);
  }

  lemma UncomparedMoments(m: Moments)
    requires m.Ordered() && m.Counted() <= m.Seen() && m.Counted() > m.Compared()
    ensures m.Seen() == m.Counted() == m.Compared() + 1 && m.extreme <= 3 * m.Counted()
  {
  }

  lemma UncomparedPassesLowest(nr: nat, m: Moments, current: int) returns (s: State)
    requires nr > 1 && m.Ordered() && m.Compared() > 0 && m.Counted() <= m.Seen() && m.Counted() > m.Compared()
    ensures Reachable(s) && s.rdNr == nr && m.extreme <= 3 * |s.rd.fifoLog|
    ensures ExtremeRead(Low, s.rd.fifoLog, m) > MeanRead(Low, s.rd.fifoLog, m, current)
  {
    var v, q := Depth(nr) - 1, m.Compared();
    UncomparedMoments(m);
    s := RdFifoDip(q, nr);
    MeanReadIs(Low, s.rd.fifoLog, m, current);
    ExtremeReadIs(Low, s.rd.fifoLog, m);
    DipSum(v, q, s.rd.fifoLog);
    FewerOf(q * v + v - 1, v, q + 1);
  }

  lemma DipSum(v: nat, q: nat, log: seq<int>)
    requires v > 0 && q > 0 && log == Repeated(v, q) + [v - 1]
    ensures Sum(log[..q + 1]) == q * v + v - 1 < (q + 1) * v && Lowest(log[..q]) == v
  {
    RepeatedPrefix(v, q, [v - 1], q);
    PrefixStep(Low, log, q);
    assert (q + 1) * v == q * v + v;
  }

  /**
   For the read FIFO, each pool and each reading: the minimum read is at most the mean in all reachable states exactly
   if the count was settled, or the minimum is still zero, or the pool cannot record anything else.
   */
  lemma MeanAboveLowestIff(nr: nat, m: Moments, current: int)
    requires m.Ordered() && m.Counted() > 0
    ensures (forall s | Reachable(s) && s.rdNr == nr && m.extreme <= 3 * |s.rd.fifoLog| ::
               ExtremeRead(Low, s.rd.fifoLog, m) <= MeanRead(Low, s.rd.fifoLog, m, current))
      <==> CountSettled(m) || m.Compared() == 0 || nr <= 1
  {
    if CountSettled(m) || m.Compared() == 0 || nr <= 1 {
      forall s | Reachable(s) && s.rdNr == nr && m.extreme <= 3 * |s.rd.fifoLog|
        ensures ExtremeRead(Low, s.rd.fifoLog, m) <= MeanRead(Low, s.rd.fifoLog, m, current)
      {
        HistoryRises(s, RdFifo);
        assert LogOf(s, RdFifo) == s.rd.fifoLog;
        MeanReadIs(Low, s.rd.fifoLog, m, current);
        assert 0 <= s.rd.fifoLog[0] <= Top(RdFifo, nr);
        MeanAboveLowest(s.rd.fifoLog, m, current, Top(RdFifo, nr));
      }
    } else if m.Counted() > m.Seen() {
      var s := UncountedPassesLowest(nr, m, current);
    } else {
      var s := UncomparedPassesLowest(nr, m, current);
    }
  }

  // ----- all readings -----

  lemma TwiceMean(sum: int, seen: nat, n: nat, top: nat)
    requires n > 0 && seen <= n + 1 && 0 <= sum <= seen * top
    ensures 0 <= sum / n <= 2 * top
  {
    MulMonotone(top, seen, 2 * n);
    assert 2 * n * top == n * (2 * top);
    QuotientBounds(sum, n, 0, 2 * top);
  }

  /** Whatever the moments, the mean is at most twice the largest value that can be recorded. */
  lemma TornMeanBound(s: State, meter: Meter, m: Moments, current: int)
    requires Reachable(s) && m.Ordered() && m.cnt <= 3 * |LogOf(s, meter)| && m.Counted() > 0
    ensures 0 <= MeanRead(KindOf(meter), LogOf(s, meter), m, current) <= 2 * Top(meter, PoolOf(s, meter))
  {
    var log, nr := LogOf(s, meter), PoolOf(s, meter);
    HistoryRises(s, meter);
    MeanReadIs(KindOf(meter), log, m, current);
    assert 0 <= log[0] <= Top(meter, nr);
    PrefixBounds(log, m.Seen(), Top(meter, nr));
    TwiceMean(Sum(log[..m.Seen()]), m.Seen(), m.Counted(), Top(meter, nr));
  }

  /**
   In every reachable state, for all readings since the last start that found something counted: the extreme is within
   the capacity, and so is the mean unless it was torn as MeanLeaves says; in percent both are then at most 100.
   */
  lemma ReachableReads(s: State, meter: Meter, m: Moments, current: int)
    requires Reachable(s) && m.Ordered() && m.extreme <= 3 * |LogOf(s, meter)| && m.Counted() > 0
    ensures var mean, extreme, capacity := MeanRead(KindOf(meter), LogOf(s, meter), m, current),
        ExtremeRead(KindOf(meter), LogOf(s, meter), m), Capacity(meter, PoolOf(s, meter));
      && 0 <= extreme <= capacity && 0 <= mean <= 2 * capacity && capacity > 0 && Percent(extreme, capacity) <= 100
      && (!MeanLeaves(meter, PoolOf(s, meter), m) ==> mean <= capacity && Percent(mean, capacity) <= 100)
  {
    var log, nr := LogOf(s, meter), PoolOf(s, meter);
    HistoryRises(s, meter);
    ExtremeReadIs(KindOf(meter), log, m);
    MeanReadIs(KindOf(meter), log, m, current);
    assert 0 <= log[0] <= Top(meter, nr);
    assert !meter.RdFifo? ==> RisesAt(log, 0, Top(meter, nr));
    PrefixBounds(log, m.Compared(), Top(meter, nr));
    TornMeanBound(s, meter, m, current);
    PercentRange(ExtremeRead(KindOf(meter), log, m), Capacity(meter, nr));
    if !MeanLeaves(meter, nr, m) {
      MeanWithin(s, meter, m, current);
      PercentRange(MeanRead(KindOf(meter), log, m, current), Capacity(meter, nr));
    }
  }

  /** The largest mean there is: a full FIFO twice one short of it, the second time not yet counted, is 198 percent. */
  lemma TornMeanReachable() returns (s: State, m: Moments)
    ensures Reachable(s) && m.Ordered() && m.extreme <= 3 * |s.rd.fifoLog| && BetweenAddAndCount(m)
    ensures MeanRead(Low, s.rd.fifoLog, m, s.rd.submitStat) == 254 == 2 * Top(RdFifo, s.rdNr)
    ensures Percent(254, RD_FIFO_DEPTH) == 198
  {
    m := Moments(4, 4, 4);
    s := RdFifoHistory(2, 128);
    MeanReadIs(Low, s.rd.fifoLog, m, s.rd.submitStat);
    RepeatedWhole(127, 2, 2);
  }

  // ----- a start between the reads -----

  /** A run leads from one state to the other. */
  ghost predicate Leads(s: State, steps: seq<Step>, q: State)
  {
    ValidRun(s, steps) && Run(s, steps) == q
  }

  lemma LeadsOn(s: State, steps: seq<Step>, q: State, step: Step)
    requires Leads(s, steps, q) && Legal(q, step) && Reachable(q)
    ensures Leads(s, steps + [step], Apply(q, step)) && Reachable(Apply(q, step))
  {
    RunAppend(s, steps, step);
    ReachableStep(q, step);
  }

  /** A stop made by a start finds the only thread outside. */
  lemma StopsForStart(s: State) returns (steps: seq<Step>, q: State)
    requires Calm(s)
    ensures Leads(s, steps, q) && Reachable(q) && q.control == Starting && q.quiet && q.rdNr == s.rdNr
  {
    assert Leads(s, [], s);
    LeadsOn(s, [], s, StartBegin);
    q := Apply(s, StartBegin);
    LeadsOn(s, [] + [StartBegin], q, ResetDone(true));
    q := Apply(q, ResetDone(true));
    steps := [] + [StartBegin] + [ResetDone(true)];
    ReachableInv(q);
    BusyNone(q.threads);
    LeadsOn(s, steps, q, Poll);
    q := Apply(q, Poll);
    steps := steps + [Poll];
  }

  lemma StartsAgain(s: State) returns (steps: seq<Step>, q: State)
    requires Calm(s)
    ensures Leads(s, steps, q) && Reachable(q) && InitLists in steps && q.enable && q.control == Started
    ensures q.rd == FreshSide(s.rdNr)
  {
    steps, q := StopsForStart(s);
    LeadsOn(s, steps, q, InitLists);
    q := Apply(q, InitLists);
    steps := steps + [InitLists];
  }

  lemma RecordsAgain(s: State) returns (steps: seq<Step>, q: State)
    requires Calm(s) && s.rdNr > 0
    ensures Leads(s, steps, q) && Reachable(q) && InitLists in steps && |q.rd.fifoLog| == 1
  {
    steps, q := StartsAgain(s);
    RdRefillMoves(q.rd);
    RdRefillKeepsLogs(q.rd);
    LeadsOn(s, steps, q, StartRefill);
    q := Apply(q, StartRefill);
    steps := steps + [StartRefill];
    CompleteOneLogs(q.rd);
    LeadsOn(s, steps, q, Interrupt([[]], 0));
    q := Apply(q, Interrupt([[]], 0));
    steps := steps + [Interrupt([[]], 0)];
  }

  /**
   With a start between the two reads there is no bound: a run leads from a state whose total is read to one whose count
   is read, after a new start and one completion, and their quotient is past any number.
   */
  lemma MeanAcrossStart(bound: nat) returns (s: State, steps: seq<Step>, q: State)
    ensures Reachable(s) && Leads(s, steps, q) && InitLists in steps && |q.rd.fifoLog| == 1
    ensures var total := WordsAfter(Low, s.rd.fifoLog, 3 * |s.rd.fifoLog|).total;
      Mean(Tally(total, WordsAfter(Low, q.rd.fifoLog, 3).cnt, 0), 0) > bound
  {
    s := RdFifoHistory(bound + 1, 128);
    steps, q := RecordsAgain(s);
    TotalAfter(Low, s.rd.fifoLog, 3 * (bound + 1), bound + 1);
    RepeatedWhole(127, bound + 1, bound + 1);
    CountAfter(Low, q.rd.fifoLog, 3, 1);
  }
}
