/**
 The block lists of one DMA direction (pdma-v1.1-src/pdma-dev.c): every list operation of the driver
 together with the statistics call made beside it, as functions on values.
 */
module PdmaLists {

  type Block = nat

  const RD_FIFO_DEPTH := 128
  const WT_FIFO_DEPTH := 128

  /** Running total, count and extreme of a tracked quantity, as the driver keeps them. */
  datatype Tally = Tally(total: int, cnt: nat, extreme: int)

  const NO_TALLY := Tally(0, 0, 0)

  function AddHigh(t: Tally, v: int): Tally
  {
    Tally(t.total + v, t.cnt + 1, if v > t.extreme then v else t.extreme)
  }

  function AddLow(t: Tally, v: int): Tally
  {
    Tally(t.total + v, t.cnt + 1, if v < t.extreme || t.cnt + 1 == 1 then v else t.extreme)
  }

  /**
   The three lists of a direction, the count of blocks in the hardware FIFO, the three statistics
   counters, the running statistics of the FIFO level and of the pending list, and the values those
   two summarise.
   */
  datatype Side = Side(free: seq<Block>, submit: seq<Block>, pending: seq<Block>, submitCnt: int,
                       freeStat: int, submitStat: int, pendingStat: int, fifo: Tally, backlog: Tally,
                       fifoLog: seq<int>, pendingLog: seq<int>)

  function Numbered(n: nat): (bs: seq<Block>)
    ensures |bs| == n
  {
    seq(n, i => i)
  }

  /** All blocks free, counters and histories reset. */
  function FreshSide(n: nat): Side
  {
    Side(Numbered(n), [], [], 0, n, 0, 0, NO_TALLY, NO_TALLY, [], [])
  }

  // ----- read direction -----

  function RdSubmitOne(r: Side): Side
    requires r.free != []
  {
    r.(free := r.free[1..], freeStat := r.freeStat - 1,
       submit := r.submit + [r.free[0]], submitStat := r.submitStat + 1, submitCnt := r.submitCnt + 1)
  }

  /** Submit free blocks until the FIFO is full or none are left. */
  function RdRefill(r: Side): Side
    decreases |r.free|
  {
    if r.submitCnt < RD_FIFO_DEPTH && r.free != [] then RdRefill(RdSubmitOne(r)) else r
  }

  function RdCompleteOne(r: Side): Side
    requires r.submit != []
  {
    r.(submit := r.submit[1..], submitStat := r.submitStat - 1,
       fifo := AddLow(r.fifo, r.submitStat - 1), fifoLog := r.fifoLog + [r.submitStat - 1],
       pending := r.pending + [r.submit[0]], pendingStat := r.pendingStat + 1,
       backlog := AddHigh(r.backlog, r.pendingStat + 1), pendingLog := r.pendingLog + [r.pendingStat + 1])
  }

  function RdComplete(r: Side, n: nat): Side
    requires n <= |r.submit|
    decreases n
  {
    if n == 0 then r else RdComplete(RdCompleteOne(r), n - 1)
  }

  function RdInterrupt(r: Side, n: nat): Side
    requires n <= |r.submit|
  {
    if n == 0 then r else RdRefill(RdComplete(r, n).(submitCnt := r.submitCnt - n))
  }

  function RdTake(r: Side): Side
    requires r.pending != []
  {
    r.(pending := r.pending[1..], pendingStat := r.pendingStat - 1)
  }

  function RdPutBack(r: Side, b: Block): Side
  {
    r.(pending := [b] + r.pending, pendingStat := r.pendingStat + 1,
       backlog := AddHigh(r.backlog, r.pendingStat + 1), pendingLog := r.pendingLog + [r.pendingStat + 1])
  }

  function RdRelease(r: Side, b: Block): Side
  {
    r.(free := r.free + [b], freeStat := r.freeStat + 1)
  }

  // ----- write direction -----

  function WtTake(w: Side): Side
    requires w.free != []
  {
    w.(free := w.free[1..], freeStat := w.freeStat - 1)
  }

  function WtPutBack(w: Side, b: Block): Side
  {
    w.(free := [b] + w.free, freeStat := w.freeStat + 1)
  }

  /** Straight to the hardware when its FIFO has room, to the pending list otherwise. */
  function WtCommit(w: Side, b: Block): Side
  {
    if w.submitCnt < WT_FIFO_DEPTH then
      w.(submit := w.submit + [b], submitStat := w.submitStat + 1, submitCnt := w.submitCnt + 1,
         fifo := AddHigh(w.fifo, w.submitStat + 1), fifoLog := w.fifoLog + [w.submitStat + 1])
    else
      w.(pending := w.pending + [b], pendingStat := w.pendingStat + 1,
         backlog := AddHigh(w.backlog, w.pendingStat + 1), pendingLog := w.pendingLog + [w.pendingStat + 1])
  }

  function WtSubmitOne(w: Side): Side
    requires w.pending != []
  {
    w.(pending := w.pending[1..], pendingStat := w.pendingStat - 1,
       submit := w.submit + [w.pending[0]], submitStat := w.submitStat + 1, submitCnt := w.submitCnt + 1,
       fifo := AddHigh(w.fifo, w.submitStat + 1), fifoLog := w.fifoLog + [w.submitStat + 1])
  }

  function WtRefill(w: Side): Side
    decreases |w.pending|
  {
    if w.submitCnt < WT_FIFO_DEPTH && w.pending != [] then WtRefill(WtSubmitOne(w)) else w
  }

  function WtCompleteOne(w: Side): Side
    requires w.submit != []
  {
    w.(submit := w.submit[1..], submitStat := w.submitStat - 1,
       free := w.free + [w.submit[0]], freeStat := w.freeStat + 1)
  }

  function WtComplete(w: Side, n: nat): Side
    requires n <= |w.submit|
    decreases n
  {
    if n == 0 then w else WtComplete(WtCompleteOne(w), n - 1)
  }

  function WtInterrupt(w: Side, n: nat): Side
    requires n <= |w.submit|
  {
    if n == 0 then w else WtRefill(WtComplete(w, n).(submitCnt := w.submitCnt - n))
  }

  // ----- what the loops do to the lists -----

  /** How many blocks a refill loop moves. */
  function Moved(cnt: int, available: nat): (m: nat)
    ensures m <= available
  {
    if cnt >= RD_FIFO_DEPTH then 0 else if RD_FIFO_DEPTH - cnt < available then RD_FIFO_DEPTH - cnt else available
  }

  lemma {:induction false} RdRefillMoves(r: Side)
    ensures var m := Moved(r.submitCnt, |r.free|); var q := RdRefill(r);
      && q.free == r.free[m..] && q.submit == r.submit + r.free[..m] && q.pending == r.pending
      && q.submitCnt == r.submitCnt + m
    decreases |r.free|
  {
    if r.submitCnt < RD_FIFO_DEPTH && r.free != [] {
      var r1, m := RdSubmitOne(r), Moved(r.submitCnt, |r.free|);
      RdRefillMoves(r1);
      assert r1.free[m - 1..] == r.free[m..];
      assert r.submit + r.free[..m] == r.submit + [r.free[0]] + r.free[1..][..m - 1];
    }
  }

  lemma {:induction false} WtRefillMoves(w: Side)
    ensures var m := Moved(w.submitCnt, |w.pending|); var q := WtRefill(w);
      && q.pending == w.pending[m..] && q.submit == w.submit + w.pending[..m] && q.free == w.free
      && q.submitCnt == w.submitCnt + m
    decreases |w.pending|
  {
    if w.submitCnt < WT_FIFO_DEPTH && w.pending != [] {
      var w1, m := WtSubmitOne(w), Moved(w.submitCnt, |w.pending|);
      WtRefillMoves(w1);
      assert w1.pending[m - 1..] == w.pending[m..];
      assert w.submit + w.pending[..m] == w.submit + [w.pending[0]] + w.pending[1..][..m - 1];
    }
  }

  lemma {:induction false} RdCompleteMoves(r: Side, n: nat)
    requires n <= |r.submit|
    ensures var q := RdComplete(r, n);
      && q.submit == r.submit[n..] && q.pending == r.pending + r.submit[..n] && q.free == r.free
      && q.submitCnt == r.submitCnt
    decreases n
  {
    if n > 0 {
      RdCompleteMoves(RdCompleteOne(r), n - 1);
      assert r.pending + r.submit[..n] == r.pending + [r.submit[0]] + r.submit[1..][..n - 1];
    }
  }

  lemma {:induction false} WtCompleteMoves(w: Side, n: nat)
    requires n <= |w.submit|
    ensures var q := WtComplete(w, n);
      && q.submit == w.submit[n..] && q.free == w.free + w.submit[..n] && q.pending == w.pending
      && q.submitCnt == w.submitCnt
    decreases n
  {
    if n > 0 {
      WtCompleteMoves(WtCompleteOne(w), n - 1);
      assert w.free + w.submit[..n] == w.free + [w.submit[0]] + w.submit[1..][..n - 1];
    }
  }

  /** Refilling stops only when the FIFO is full or nothing is left to submit. */
  lemma RdRefillExhausts(r: Side)
    ensures RdRefill(r).free == [] || RdRefill(r).submitCnt >= RD_FIFO_DEPTH
  {
    RdRefillMoves(r);
  }

  lemma RdInterruptMoves(r: Side, n: nat) returns (m: nat)
    requires n <= |r.submit|
    ensures m <= |r.free|
    ensures var q := RdInterrupt(r, n);
      && q.free == r.free[m..] && q.submit == r.submit[n..] + r.free[..m] && q.pending == r.pending + r.submit[..n]
      && q.submitCnt == r.submitCnt - n + m
      && (if n == 0 then m == 0 else q.free == [] || q.submitCnt >= RD_FIFO_DEPTH)
      && (r.submitCnt <= RD_FIFO_DEPTH ==> q.submitCnt <= RD_FIFO_DEPTH)
  {
    if n == 0 {
      m := 0;
    } else {
      var c := RdComplete(r, n).(submitCnt := r.submitCnt - n);
      RdCompleteMoves(r, n);
      RdRefillMoves(c);
      m := Moved(c.submitCnt, |c.free|);
    }
  }

  lemma WtInterruptMoves(w: Side, n: nat) returns (m: nat)
    requires n <= |w.submit|
    ensures m <= |w.pending|
    ensures var q := WtInterrupt(w, n);
      && q.pending == w.pending[m..] && q.submit == w.submit[n..] + w.pending[..m] && q.free == w.free + w.submit[..n]
      && q.submitCnt == w.submitCnt - n + m
      && (if n == 0 then m == 0 else q.pending == [] || q.submitCnt >= WT_FIFO_DEPTH)
      && (w.submitCnt <= WT_FIFO_DEPTH ==> q.submitCnt <= WT_FIFO_DEPTH)
  {
    if n == 0 {
      m := 0;
    } else {
      var c := WtComplete(w, n).(submitCnt := w.submitCnt - n);
      WtCompleteMoves(w, n);
      WtRefillMoves(c);
      m := Moved(c.submitCnt, |c.pending|);
    }
  }
}
