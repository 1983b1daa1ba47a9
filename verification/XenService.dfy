/**
 The service loop itself (ire/backup_con/dom0_141223_blocksz/data.c): the pool of pending requests, the two
 reference counts, and the loop that consumes requests and writes responses over the same ring slots.
 */
module XenService {
  import opened Words
  import opened XenRing
  import opened XenBackend
  import opened RefCount

  /** The ioctl commands the back end knows, and any other. */
  datatype Command = StartDma | StopDma | Info | Stat | RwReg | Other

  /** A request as the back end executes it. */
  datatype Handled = Handled(front: nat, operation: Word, cmd: Command)

  function OpenEvent(h: Handled): seq<Event>
  {
    if h.operation == OP_OPEN then [Up(h.front)]
    else if h.operation == OP_CLOSE then [Down(h.front)]
    else []
  }

  function DmaEvent(h: Handled): seq<Event>
  {
    if h.operation != OP_IOCTL then []
    else if h.cmd == StartDma then [Up(h.front)]
    else if h.cmd == StopDma then [Down(h.front)]
    else []
  }

  /** The requests that count towards open_cnt. */
  function OpenEvents(log: seq<Handled>): seq<Event>
  {
    if log == [] then [] else OpenEvents(log[..|log| - 1]) + OpenEvent(log[|log| - 1])
  }

  /** The requests that count towards pdma_dma_cnt. */
  function DmaEvents(log: seq<Handled>): seq<Event>
  {
    if log == [] then [] else DmaEvents(log[..|log| - 1]) + DmaEvent(log[|log| - 1])
  }

  lemma LogSnoc(log: seq<Handled>, h: Handled)
    ensures OpenEvents(log + [h]) == OpenEvents(log) + OpenEvent(h)
    ensures DmaEvents(log + [h]) == DmaEvents(log) + DmaEvent(h)
  {
    assert (log + [h])[..|log|] == log;
  }

  /** Whether an ioctl fails: only if it reaches the device, and the device says so. */
  function IoctlFails(cmd: Command, dmaCount: int, error: bool): bool
  {
    match cmd
    case StartDma => dmaCount + 1 == 1 && error
    case StopDma => dmaCount - 1 == 0 && error
    case Other => false
    case _ => error
  }

  /** Whether a request fails with pdma_dma_cnt at `dmaCount`. */
  function Outcome(dmaCount: int, h: Handled, error: bool): bool
  {
    Fails(h.operation, IoctlFails(h.cmd, dmaCount, error))
  }

  /** An ioctl fails exactly when it reaches the device and the device reports an error. */
  lemma FailsIffCalled(front: nat, cmd: Command, dmaCount: int, error: bool)
    ensures IoctlFails(cmd, dmaCount, error) <==>
      error && (cmd in {Info, Stat, RwReg}
                || (cmd == StartDma && Called(dmaCount, Up(front)) != [])
                || (cmd == StopDma && Called(dmaCount, Down(front)) != []))
  {
  }

  /** chrbk as a value: both counts, the device calls each has caused, and every request executed. */
  datatype Counts = Counts(openCnt: int, opens: seq<bool>, dmaCnt: int, dmas: seq<bool>, log: seq<Handled>)

  /** The device opened or closed for a frontend. */
  function Opened(c: Counts, e: Event): Counts
  {
    c.(openCnt := c.openCnt + Change(e), opens := c.opens + Called(c.openCnt, e))
  }

  /** DMA started or stopped for a frontend. */
  function Started(c: Counts, e: Event): Counts
  {
    c.(dmaCnt := c.dmaCnt + Change(e), dmas := c.dmas + Called(c.dmaCnt, e))
  }

  function Handle(c: Counts, h: Handled): Counts
  {
    var d := c.(log := c.log + [h]);
    if h.operation == OP_OPEN then Opened(d, Up(h.front))
    else if h.operation == OP_CLOSE then Opened(d, Down(h.front))
    else if h.operation == OP_IOCTL && h.cmd == StartDma then Started(d, Up(h.front))
    else if h.operation == OP_IOCTL && h.cmd == StopDma then Started(d, Down(h.front))
    else d
  }

  ghost predicate Follows(count: int, calls: seq<bool>, events: seq<Event>)
  {
    count == Count(events) && calls == Calls(events)
  }

  lemma FollowsNext(count: int, calls: seq<bool>, events: seq<Event>, e: Event)
    requires Follows(count, calls, events)
    ensures Follows(count + Change(e), calls + Called(count, e), events + [e])
  {
    Snoc(events, e);
  }

  ghost predicate OpensFollow(c: Counts)
  {
    Follows(c.openCnt, c.opens, OpenEvents(c.log))
  }

  ghost predicate DmasFollow(c: Counts)
  {
    Follows(c.dmaCnt, c.dmas, DmaEvents(c.log))
  }

  /** Counts and calls are those of the requests in the log. */
  ghost predicate Consistent(c: Counts)
  {
    OpensFollow(c) && DmasFollow(c)
  }

  lemma HandleOpens(c: Counts, h: Handled)
    requires OpensFollow(c)
    ensures OpensFollow(Handle(c, h))
  {
    LogSnoc(c.log, h);
    var events := OpenEvents(c.log);
    assert events + [] == events;
    if h.operation == OP_OPEN {
      FollowsNext(c.openCnt, c.opens, events, Up(h.front));
    } else if h.operation == OP_CLOSE {
      FollowsNext(c.openCnt, c.opens, events, Down(h.front));
    }
  }

  lemma DmasKept(c: Counts, h: Handled)
    requires DmasFollow(c) && DmaEvent(h) == []
    ensures DmasFollow(Handle(c, h))
  {
    LogSnoc(c.log, h);
    assert DmaEvents(c.log) + [] == DmaEvents(c.log);
  }

  lemma DmasCounted(c: Counts, h: Handled, e: Event)
    requires DmasFollow(c) && DmaEvent(h) == [e]
    ensures DmasFollow(Handle(c, h))
  {
    LogSnoc(c.log, h);
    FollowsNext(c.dmaCnt, c.dmas, DmaEvents(c.log), e);
  }

  lemma HandleDmas(c: Counts, h: Handled)
    requires DmasFollow(c)
    ensures DmasFollow(Handle(c, h))
  {
    if DmaEvent(h) == [] {
      DmasKept(c, h);
    } else {
      DmasCounted(c, h, DmaEvent(h)[0]);
    }
  }

  // ----- histories -----

  /** The k-th request takes the k-th state of the device to the next. */
  ghost predicate HandledAt(history: nat -> Counts, asks: nat -> Handled, k: nat)
  {
    history(k + 1) == Handle(history(k), asks(k))
  }

  lemma {:induction false} HistoryOpens(history: nat -> Counts, asks: nat -> Handled, n: nat)
    requires (forall k: nat | k < n :: HandledAt(history, asks, k)) && OpensFollow(history(0))
    ensures OpensFollow(history(n))
  {
    if n > 0 {
      HistoryOpens(history, asks, n - 1);
      assert HandledAt(history, asks, n - 1);
      HandleOpens(history(n - 1), asks(n - 1));
    }
  }

  lemma {:induction false} HistoryDmas(history: nat -> Counts, asks: nat -> Handled, n: nat)
    requires (forall k: nat | k < n :: HandledAt(history, asks, k)) && DmasFollow(history(0))
    ensures DmasFollow(history(n))
  {
    if n > 0 {
      HistoryDmas(history, asks, n - 1);
      assert HandledAt(history, asks, n - 1);
      HandleDmas(history(n - 1), asks(n - 1));
    }
  }

  function First(asks: nat -> Handled, n: nat): (log: seq<Handled>)
    ensures |log| == n && forall k | 0 <= k < n :: log[k] == asks(k)
  {
    seq(n, k requires k >= 0 => asks(k))
  }

  lemma {:induction false} HistoryLog(history: nat -> Counts, asks: nat -> Handled, n: nat)
    requires forall k: nat | k < n :: HandledAt(history, asks, k)
    ensures history(n).log == history(0).log + First(asks, n)
  {
    if n > 0 {
      HistoryLog(history, asks, n - 1);
      assert HandledAt(history, asks, n - 1);
      assert First(asks, n) == First(asks, n - 1) + [asks(n - 1)];
    }
  }

  /** Along any history counts and calls stay in agreement with the log, which grows by exactly the requests. */
  lemma HistoryConsistent(history: nat -> Counts, asks: nat -> Handled, n: nat)
    requires (forall k: nat | k < n :: HandledAt(history, asks, k)) && Consistent(history(0))
    ensures Consistent(history(n)) && history(n).log == history(0).log + First(asks, n)
  {
    HistoryOpens(history, asks, n);
    HistoryDmas(history, asks, n);
    HistoryLog(history, asks, n);
  }

  /** chrbk: one device shared by all frontends; requests are executed under one mutex. */
  class Device {
    var openCnt: int
    var dmaCnt: int
    var opens: seq<bool>          // filp_open and filp_close calls made
    var dmas: seq<bool>           // start and stop calls made
    ghost var log: seq<Handled>   // every request executed

    ghost function Contents(): Counts
      reads this
    {
      Counts(openCnt, opens, dmaCnt, dmas, log)
    }

    constructor ()
      ensures Contents() == Counts(0, [], 0, [], [])
    {
      openCnt, dmaCnt, opens, dmas, log := 0, 0, [], [], [];
    }

    /** A start counts one up and begins DMA from zero, a stop one down and ends it at zero, nothing else touches it. */
    predicate IoctlDone(before: int, calls: seq<bool>, cmd: Command)
      reads this
    {
      match cmd
      case StartDma => dmaCnt == before + 1 && dmas == calls + if before == 0 then [true] else []
      case StopDma => dmaCnt == before - 1 && dmas == calls + if before == 1 then [false] else []
      case _ => dmaCnt == before && dmas == calls
    }

    /** do_ioctl_resp; `error` is what the device answers if it is called. */
    method Ioctl(front: nat, cmd: Command, error: bool) returns (failed: bool)
      modifies this
      ensures log == old(log) + [Handled(front, OP_IOCTL, cmd)]
      ensures Contents() == Handle(old(Contents()), Handled(front, OP_IOCTL, cmd))
      ensures failed == IoctlFails(cmd, old(dmaCnt), error)
      ensures IoctlDone(old(dmaCnt), old(dmas), cmd) && openCnt == old(openCnt) && opens == old(opens)
      ensures failed <==> error && (cmd in {Info, Stat, RwReg} || |dmas| > |old(dmas)|)
    {
      log := log + [Handled(front, OP_IOCTL, cmd)];
      failed := false;
      match cmd {
        case StartDma =>
          dmaCnt := dmaCnt + 1;
          if dmaCnt == 1 {
            dmas := dmas + [true];
            failed := error;
          }
        case StopDma =>
          dmaCnt := dmaCnt - 1;
          if dmaCnt == 0 {
            dmas := dmas + [false];
            failed := error;
          }
        case Other =>
        case _ => failed := error;
      }
    }

    /** The switch of the service loop. */
    method Execute(h: Handled, error: bool) returns (failed: bool)
      modifies this
      ensures Contents() == Handle(old(Contents()), h)
      ensures failed == Outcome(old(dmaCnt), h, error)
      ensures log == old(log) + [h]
      ensures openCnt
        == old(openCnt) + (if h.operation == OP_OPEN then 1 else if h.operation == OP_CLOSE then -1 else 0)
      ensures opens == old(opens) + (if h.operation == OP_OPEN && old(openCnt) == 0 then [true]
                                     else if h.operation == OP_CLOSE && openCnt == 0 then [false] else [])
      ensures h.operation != OP_IOCTL ==> dmaCnt == old(dmaCnt) && dmas == old(dmas)
      ensures h.operation == OP_IOCTL ==> IoctlDone(old(dmaCnt), old(dmas), h.cmd)
      ensures h.operation in {OP_OPEN, OP_WRITE, OP_CLOSE} ==> !failed
      ensures h.operation !in {OP_OPEN, OP_WRITE, OP_IOCTL, OP_CLOSE} ==> failed
      ensures h.operation == OP_IOCTL ==>
        (failed <==> error && (h.cmd in {Info, Stat, RwReg} || |dmas| > |old(dmas)|))
    {
      failed := false;
      if h.operation == OP_IOCTL {
        failed := Ioctl(h.front, h.cmd, error);
        return;
      }
      log := log + [h];
      if h.operation == OP_OPEN {
        openCnt := openCnt + 1;
        if openCnt == 1 {
          opens := opens + [true];
        }
      } else if h.operation == OP_CLOSE {
        openCnt := openCnt - 1;
        if openCnt == 0 {
          opens := opens + [false];
        }
      } else if h.operation != OP_WRITE {
        failed := true;
      }
    }
  }

  /** Whatever is asked for, calls alternate; the device is open, or DMA on, exactly while its count is positive. */
  lemma DeviceUse(c: Counts)
    requires Consistent(c)
    ensures Alternate(c.opens) && (InUse(c.opens) <==> c.openCnt > 0)
    ensures Alternate(c.dmas) && (InUse(c.dmas) <==> c.dmaCnt > 0)
  {
    CallsAlternate(OpenEvents(c.log));
    CallsAlternate(DmaEvents(c.log));
  }

  /** Frontends that balance open with close keep the device open exactly while one of them has it open. */
  lemma OpenIffHeld(c: Counts, n: nat)
    requires Consistent(c) && FrontsBelow(OpenEvents(c.log), n) && Balanced(OpenEvents(c.log), n)
    ensures InUse(c.opens) <==> SomeoneHolds(OpenEvents(c.log), n)
  {
    InUseIffHeld(OpenEvents(c.log), n);
  }

  /** And those that balance start with stop keep DMA running exactly while one of them has started it. */
  lemma DmaIffHeld(c: Counts, n: nat)
    requires Consistent(c) && FrontsBelow(DmaEvents(c.log), n) && Balanced(DmaEvents(c.log), n)
    ensures InUse(c.dmas) <==> SomeoneHolds(DmaEvents(c.log), n)
  {
    InUseIffHeld(DmaEvents(c.log), n);
  }

  /** Without balance: exactly when the device is open while some frontend has it open, and not otherwise. */
  lemma OpenExactly(c: Counts, n: nat)
    requires Consistent(c) && FrontsBelow(OpenEvents(c.log), n)
    ensures var events := OpenEvents(c.log);
      (InUse(c.opens) <==> SomeoneHolds(events, n)) <==> (Held(events, n) == 0 || Surplus(events, n) < Held(events, n))
  {
    InUseExactly(OpenEvents(c.log), n);
  }

  /** And when DMA runs while some frontend has started it, and not otherwise. */
  lemma DmaExactly(c: Counts, n: nat)
    requires Consistent(c) && FrontsBelow(DmaEvents(c.log), n)
    ensures var events := DmaEvents(c.log);
      (InUse(c.dmas) <==> SomeoneHolds(events, n)) <==> (Held(events, n) == 0 || Surplus(events, n) < Held(events, n))
  {
    InUseExactly(DmaEvents(c.log), n);
  }
}
