/**
 The driver structure of pdma-v1.1-src/pdma-dev.h, its rd_ and wt_ fields grouped by direction, and the
 code that changes it in place (pdma-v1.1-src/pdma-dev.c). Each method is the body of one critical
 section, or a loop of one, and computes exactly the function of PdmaLists the step machine uses for it.
 */
module PdmaDriver {
  import opened PdmaLists
  import opened PdmaStats

  datatype Option<T> = None | Some(value: T)

  /** The rd_ fields. */
  class ReadSide {
    const bufNr: nat
    var free: seq<Block>
    var submit: seq<Block>
    var pending: seq<Block>
    var submitCnt: int
    var freeAtomic: int
    var submitAtomic: int
    var pendingAtomic: int
    var fifo: Tally
    var backlog: Tally
    ghost var fifoLog: seq<int>
    ghost var pendingLog: seq<int>

    /** The direction as a value. */
    ghost function Value(): Side
      reads this
    {
      Side(free, submit, pending, submitCnt, freeAtomic, submitAtomic, pendingAtomic, fifo, backlog,
           fifoLog, pendingLog)
    }

    constructor (n: nat)
      ensures bufNr == n && Value() == FreshSide(n)
    {
      bufNr := n;
      free, submit, pending, submitCnt := Numbered(n), [], [], 0;
      freeAtomic, submitAtomic, pendingAtomic := n, 0, 0;
      fifo, backlog, fifoLog, pendingLog := NO_TALLY, NO_TALLY, [], [];
    }

    /** pdma_stat_rd_submit_dec: the FIFO level is recorded whenever it falls, and the tally summarises the record. */
    method StatSubmitDec()
      modifies this
      ensures old(fifo == LowTally(fifoLog)) ==> fifo == LowTally(fifoLog)
      ensures fifo.extreme <= submitAtomic
      ensures var v := old(submitAtomic) - 1;
        Value() == old(Value()).(submitStat := v, fifo := AddLow(old(fifo), v), fifoLog := old(fifoLog) + [v])
    {
      submitAtomic := submitAtomic - 1;
      TalliesFollowLog(fifoLog, submitAtomic);
      fifo := AddLow(fifo, submitAtomic);
      fifoLog := fifoLog + [submitAtomic];
    }

    /** pdma_stat_rd_pending_inc: the backlog is recorded whenever it grows, and the tally summarises the record. */
    method StatPendingInc()
      modifies this
      ensures old(backlog == HighTally(pendingLog)) ==> backlog == HighTally(pendingLog)
      ensures pendingAtomic <= backlog.extreme
      ensures var v := old(pendingAtomic) + 1;
        Value() == old(Value()).(pendingStat := v, backlog := AddHigh(old(backlog), v),
                                 pendingLog := old(pendingLog) + [v])
    {
      pendingAtomic := pendingAtomic + 1;
      TalliesFollowLog(pendingLog, pendingAtomic);
      backlog := AddHigh(backlog, pendingAtomic);
      pendingLog := pendingLog + [pendingAtomic];
    }

    method SubmitOne()
      requires free != []
      modifies this
      ensures Value() == RdSubmitOne(old(Value()))
    {
      var cur := free[0];
      free := free[1..];
      freeAtomic := freeAtomic - 1;
      submit := submit + [cur];
      submitAtomic := submitAtomic + 1;
      submitCnt := submitCnt + 1;
    }

    /** pdma_try_to_submit_read_nolock. */
    method TryToSubmit(dmaEnable: bool)
      modifies this
      ensures Value() == if dmaEnable then RdRefill(old(Value())) else old(Value())
    {
      if !dmaEnable {
        return;
      }
      while submitCnt < RD_FIFO_DEPTH && free != []
        invariant RdRefill(Value()) == RdRefill(old(Value()))
        decreases |free|
      {
        SubmitOne();
      }
    }

    method CompleteOne()
      requires submit != []
      modifies this
      ensures Value() == RdCompleteOne(old(Value()))
    {
      var cur := submit[0];
      submit := submit[1..];
      StatSubmitDec();
      pending := pending + [cur];
      StatPendingInc();
    }

    /** The read half of pdma_intr_notify. */
    method Completed(cnt: nat)
      requires cnt <= |submit|
      modifies this
      ensures Value() == RdInterrupt(old(Value()), cnt)
    {
      if cnt == 0 {
        return;
      }
      for i := 0 to cnt
        invariant cnt - i <= |submit|
        invariant RdComplete(Value(), cnt - i) == RdComplete(old(Value()), cnt)
      {
        CompleteOne();
      }
      RdCompleteMoves(old(Value()), cnt);
      submitCnt := submitCnt - cnt;
      TryToSubmit(true);
    }

    /** First critical section of pdma_read. */
    method Take() returns (block: Option<Block>)
      modifies this
      ensures block == if old(pending) == [] then None else Some(old(pending)[0])
      ensures Value() == if block.None? then old(Value()) else RdTake(old(Value()))
    {
      if pending != [] {
        block := Some(pending[0]);
        pending := pending[1..];
        pendingAtomic := pendingAtomic - 1;
      } else {
        block := None;
      }
    }

    /** After a failed copy_to_user: the next Take gives this block and leaves all but the backlog record as it was. */
    method PutBack(block: Block)
      modifies this
      ensures Value() == RdPutBack(old(Value()), block)
      ensures pending != [] && pending[0] == block
      ensures RdTake(Value()) == old(Value()).(backlog := backlog, pendingLog := pendingLog)
      ensures old(backlog == HighTally(pendingLog)) ==> backlog == HighTally(pendingLog)
    {
      pending := [block] + pending;
      StatPendingInc();
    }

    /** After a successful one: the submission that follows takes it after every block freed before it. */
    method Release(block: Block)
      modifies this
      ensures Value() == RdRelease(old(Value()), block)
      ensures RdRefill(Value()).submit
        == old(submit) + (old(free) + [block])[..Moved(old(submitCnt), |old(free)| + 1)]
    {
      RdRefillMoves(RdRelease(Value(), block));
      free := free + [block];
      freeAtomic := freeAtomic + 1;
    }

    /** The read half of pdma_dev_list_init. */
    method ListInit()
      modifies this
      ensures Value() == FreshSide(bufNr)
      ensures free == seq(bufNr, i => i) && submit == pending == [] && submitCnt == 0
      ensures freeAtomic == bufNr && submitAtomic == pendingAtomic == 0 && fifo == backlog == Tally(0, 0, 0)
    {
      free, submit, pending, submitCnt := [], [], [], 0;
      freeAtomic, submitAtomic, pendingAtomic := 0, 0, 0;
      fifo, backlog, fifoLog, pendingLog := NO_TALLY, NO_TALLY, [], [];
      for i := 0 to bufNr
        invariant Value() == FreshSide(i)
      {
        FreshGrows(i);
        free := free + [i];
        freeAtomic := freeAtomic + 1;
      }
    }
  }

  lemma FreshGrows(n: nat)
    ensures FreshSide(n + 1) == FreshSide(n).(free := FreshSide(n).free + [n], freeStat := n + 1)
  {
    assert Numbered(n + 1) == Numbered(n) + [n];
  }

  /** The wt_ fields. */
  class WriteSide {
    const bufNr: nat
    var free: seq<Block>
    var submit: seq<Block>
    var pending: seq<Block>
    var submitCnt: int
    var freeAtomic: int
    var submitAtomic: int
    var pendingAtomic: int
    var fifo: Tally
    var backlog: Tally
    ghost var fifoLog: seq<int>
    ghost var pendingLog: seq<int>

    /** The direction as a value. */
    ghost function Value(): Side
      reads this
    {
      Side(free, submit, pending, submitCnt, freeAtomic, submitAtomic, pendingAtomic, fifo, backlog,
           fifoLog, pendingLog)
    }

    constructor (n: nat)
      ensures bufNr == n && Value() == FreshSide(n)
    {
      bufNr := n;
      free, submit, pending, submitCnt := Numbered(n), [], [], 0;
      freeAtomic, submitAtomic, pendingAtomic := n, 0, 0;
      fifo, backlog, fifoLog, pendingLog := NO_TALLY, NO_TALLY, [], [];
    }

    /** pdma_stat_wt_submit_inc: the FIFO level is recorded whenever it rises, and the tally summarises the record. */
    method StatSubmitInc()
      modifies this
      ensures old(fifo == HighTally(fifoLog)) ==> fifo == HighTally(fifoLog)
      ensures submitAtomic <= fifo.extreme
      ensures var v := old(submitAtomic) + 1;
        Value() == old(Value()).(submitStat := v, fifo := AddHigh(old(fifo), v), fifoLog := old(fifoLog) + [v])
    {
      submitAtomic := submitAtomic + 1;
      TalliesFollowLog(fifoLog, submitAtomic);
      fifo := AddHigh(fifo, submitAtomic);
      fifoLog := fifoLog + [submitAtomic];
    }

    /** pdma_stat_wt_pending_inc: the same for the write backlog. */
    method StatPendingInc()
      modifies this
      ensures old(backlog == HighTally(pendingLog)) ==> backlog == HighTally(pendingLog)
      ensures pendingAtomic <= backlog.extreme
      ensures var v := old(pendingAtomic) + 1;
        Value() == old(Value()).(pendingStat := v, backlog := AddHigh(old(backlog), v),
                                 pendingLog := old(pendingLog) + [v])
    {
      pendingAtomic := pendingAtomic + 1;
      TalliesFollowLog(pendingLog, pendingAtomic);
      backlog := AddHigh(backlog, pendingAtomic);
      pendingLog := pendingLog + [pendingAtomic];
    }

    method SubmitOne()
      requires pending != []
      modifies this
      ensures Value() == WtSubmitOne(old(Value()))
    {
      var cur := pending[0];
      pending := pending[1..];
      pendingAtomic := pendingAtomic - 1;
      submit := submit + [cur];
      StatSubmitInc();
      submitCnt := submitCnt + 1;
    }

    /** pdma_try_to_submit_write_nolock. */
    method TryToSubmit(dmaEnable: bool)
      modifies this
      ensures Value() == if dmaEnable then WtRefill(old(Value())) else old(Value())
    {
      if !dmaEnable {
        return;
      }
      while submitCnt < WT_FIFO_DEPTH && pending != []
        invariant WtRefill(Value()) == WtRefill(old(Value()))
        decreases |pending|
      {
        SubmitOne();
      }
    }

    method CompleteOne()
      requires submit != []
      modifies this
      ensures Value() == WtCompleteOne(old(Value()))
    {
      var cur := submit[0];
      submit := submit[1..];
      submitAtomic := submitAtomic - 1;
      free := free + [cur];
      freeAtomic := freeAtomic + 1;
    }

    /** The write half of pdma_intr_notify. */
    method Completed(cnt: nat)
      requires cnt <= |submit|
      modifies this
      ensures Value() == WtInterrupt(old(Value()), cnt)
    {
      if cnt == 0 {
        return;
      }
      for i := 0 to cnt
        invariant cnt - i <= |submit|
        invariant WtComplete(Value(), cnt - i) == WtComplete(old(Value()), cnt)
      {
        CompleteOne();
      }
      WtCompleteMoves(old(Value()), cnt);
      submitCnt := submitCnt - cnt;
      TryToSubmit(true);
    }

    /** First critical section of pdma_write. */
    method Take() returns (block: Option<Block>)
      modifies this
      ensures block == if old(free) == [] then None else Some(old(free)[0])
      ensures Value() == if block.None? then old(Value()) else WtTake(old(Value()))
    {
      if free != [] {
        block := Some(free[0]);
        free := free[1..];
        freeAtomic := freeAtomic - 1;
      } else {
        block := None;
      }
    }

    /** After a failed copy_from_user: the next Take gives this block and leaves everything as it was. */
    method PutBack(block: Block)
      modifies this
      ensures Value() == WtPutBack(old(Value()), block)
      ensures free != [] && free[0] == block && WtTake(Value()) == old(Value())
    {
      free := [block] + free;
      freeAtomic := freeAtomic + 1;
    }

    /** After a successful one. False when DMA was stopped meanwhile: the block then stays on no list. */
    method Commit(block: Block, dmaEnable: bool) returns (accepted: bool)
      modifies this
      ensures accepted == dmaEnable
      ensures Value() == if accepted then WtCommit(old(Value()), block) else old(Value())
    {
      if !dmaEnable {
        return false;
      }
      if submitCnt < WT_FIFO_DEPTH {
        submit := submit + [block];
        StatSubmitInc();
        submitCnt := submitCnt + 1;
      } else {
        pending := pending + [block];
        StatPendingInc();
      }
      return true;
    }

    /** The write half of pdma_dev_list_init. */
    method ListInit()
      modifies this
      ensures Value() == FreshSide(bufNr)
      ensures free == seq(bufNr, i => i) && submit == pending == [] && submitCnt == 0
      ensures freeAtomic == bufNr && submitAtomic == pendingAtomic == 0 && fifo == backlog == Tally(0, 0, 0)
    {
      free, submit, pending, submitCnt := [], [], [], 0;
      freeAtomic, submitAtomic, pendingAtomic := 0, 0, 0;
      fifo, backlog, fifoLog, pendingLog := NO_TALLY, NO_TALLY, [], [];
      for i := 0 to bufNr
        invariant Value() == FreshSide(i)
      {
        FreshGrows(i);
        free := free + [i];
        freeAtomic := freeAtomic + 1;
      }
    }
  }

  const MAX_POLLS := 1_000_000
  const EAGAIN := 11

  /** dma_enable and the two directions; rw_cnt belongs to all threads and is read as they change it. */
  class Pdma {
    var dmaEnable: bool
    const rd: ReadSide
    const wt: WriteSide

    /** pdma_dev_ctrl_init. */
    constructor (rdBufNr: nat, wtBufNr: nat)
      ensures !dmaEnable && fresh(rd) && fresh(wt)
      ensures rd.Value() == FreshSide(rdBufNr) && wt.Value() == FreshSide(wtBufNr)
    {
      dmaEnable := false;
      rd := new ReadSide(rdBufNr);
      wt := new WriteSide(wtBufNr);
    }

    /** pdma_intr_notify, given the completion counts read from the device. */
    method IntrNotify(rdCnt: nat, wtCnt: nat)
      requires dmaEnable ==> rdCnt <= |rd.submit| && wtCnt <= |wt.submit|
      modifies rd, wt
      ensures rd.Value() == if dmaEnable then RdInterrupt(old(rd.Value()), rdCnt) else old(rd.Value())
      ensures wt.Value() == if dmaEnable then WtInterrupt(old(wt.Value()), wtCnt) else old(wt.Value())
    {
      if dmaEnable {
        rd.Completed(rdCnt);
        wt.Completed(wtCnt);
      }
    }

    /** The first step of pdma_dma_stop. */
    method DisableDma()
      modifies this
      ensures !dmaEnable
    {
      dmaEnable := false;
    }

    /**
     pdma_dma_stop, given the result of the device reset and the successive readings of rw_cnt, which other threads
     change meanwhile: 0 exactly when the reset works and one of the readings allowed is zero.
     */
    method Stop(resetStatus: int, rwCnt: nat -> int) returns (ret: int)
      modifies this
      ensures !dmaEnable
      ensures ret == 0 <==> resetStatus == 0 && exists i: nat :: i <= MAX_POLLS && rwCnt(i) == 0
      ensures resetStatus != 0 ==> ret == resetStatus
      ensures ret != 0 && resetStatus == 0 ==> ret == -EAGAIN
    {
      DisableDma();
      if resetStatus != 0 {
        return resetStatus;
      }
      var count := 0;
      while rwCnt(count) != 0
        invariant count <= MAX_POLLS && forall i: nat | i < count :: rwCnt(i) != 0
        decreases MAX_POLLS - count
      {
        count := count + 1;
        if count > MAX_POLLS {
          return -EAGAIN;
        }
      }
      return 0;
    }

    /** The locked part of pdma_dma_start: fresh lists, DMA on, nothing submitted yet. */
    method EnableDma()
      modifies this, rd, wt
      ensures dmaEnable && rd.Value() == FreshSide(rd.bufNr) && wt.Value() == FreshSide(wt.bufNr)
    {
      rd.ListInit();
      wt.ListInit();
      dmaEnable := true;
    }

    /** Its last step, after the lock was dropped: submit what is free by then, if DMA is still on. */
    method SubmitReads()
      modifies rd
      ensures rd.Value() == if dmaEnable then RdRefill(old(rd.Value())) else old(rd.Value())
      ensures dmaEnable ==> rd.free == [] || rd.submitCnt >= RD_FIFO_DEPTH
    {
      RdRefillExhausts(rd.Value());
      rd.TryToSubmit(dmaEnable);
    }

    /** pdma_get_stat. */
    method GetStat() returns (r: Report)
      requires rd.bufNr > 0 && wt.bufNr > 0
      ensures r == ReportOf(rd.Value(), wt.Value(), rd.bufNr, wt.bufNr)
    {
      var rdFifoMean := MeanOf(rd.fifo, rd.submitAtomic);
      var rdBacklogMean := MeanOf(rd.backlog, rd.pendingAtomic);
      var wtFifoMean := MeanOf(wt.fifo, wt.submitAtomic);
      var wtBacklogMean := MeanOf(wt.backlog, wt.pendingAtomic);
      r := Report(rd.freeAtomic, rd.submitAtomic, rd.pendingAtomic, wt.freeAtomic, wt.submitAtomic, wt.pendingAtomic,
                  GaugeOf(rd.fifo.extreme, rdFifoMean, rd.submitAtomic, RD_FIFO_DEPTH),
                  GaugeOf(rd.backlog.extreme, rdBacklogMean, rd.pendingAtomic, rd.bufNr),
                  GaugeOf(wt.fifo.extreme, wtFifoMean, wt.submitAtomic, WT_FIFO_DEPTH),
                  GaugeOf(wt.backlog.extreme, wtBacklogMean, wt.pendingAtomic, wt.bufNr));
    }

    method MeanOf(t: Tally, current: int) returns (mean: int)
      ensures mean == Mean(t, current)
    {
      if t.cnt == 0 {
        mean := current;
      } else {
        mean := t.total / t.cnt;
      }
    }
  }
}
