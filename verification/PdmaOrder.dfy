/**
 Payload order. Writes reach the device in exactly the order they were committed, over any number of
 writers. Reads neither lose nor duplicate a payload over any number of readers, and with one reader
 at a time they arrive in completion order even when copies fail.
 */
module PdmaOrder {
  import opened PdmaLists
  import opened PdmaProtocol
  import opened PdmaConservation
  import opened PdmaInvariants

  // ----- memory under the lists -----

  lemma PayloadsConcat(mem: seq<Payload>, bs: seq<Block>, cs: seq<Block>)
    ensures Payloads(mem, bs + cs) == Payloads(mem, bs) + Payloads(mem, cs)
  {
  }

  lemma PayloadsSplit(mem: seq<Payload>, bs: seq<Block>, n: nat)
    requires n <= |bs|
    ensures Payloads(mem, bs) == Payloads(mem, bs[..n]) + Payloads(mem, bs[n..])
  {
    assert bs == bs[..n] + bs[n..];
  }

  lemma StoreElsewhere(mem: seq<Payload>, b: Block, data: Payload, bs: seq<Block>)
    requires b !in bs
    ensures Payloads(Store(mem, b, data), bs) == Payloads(mem, bs)
  {
  }

  lemma {:induction false} StoreAllElsewhere(mem: seq<Payload>, bs: seq<Block>, data: seq<Payload>, c: Block)
    requires |bs| == |data| && c !in bs
    ensures Load(StoreAll(mem, bs, data), c) == Load(mem, c)
    decreases |bs|
  {
    if bs != [] {
      StoreAllElsewhere(Store(mem, bs[0], data[0]), bs[1..], data[1..], c);
    }
  }

  ghost predicate DistinctBelow(bs: seq<Block>, n: nat)
  {
    && (forall i | 0 <= i < |bs| :: bs[i] < n)
    && (forall i, j | 0 <= i < j < |bs| :: bs[i] != bs[j])
  }

  lemma {:induction false} StoreAllReads(mem: seq<Payload>, bs: seq<Block>, data: seq<Payload>)
    requires |bs| == |data| && DistinctBelow(bs, |mem|)
    ensures Payloads(StoreAll(mem, bs, data), bs) == data
    decreases |bs|
  {
    if bs != [] {
      var mem1 := Store(mem, bs[0], data[0]);
      StoreAllReads(mem1, bs[1..], data[1..]);
      StoreAllElsewhere(mem1, bs[1..], data[1..], bs[0]);
      assert Payloads(StoreAll(mem, bs, data), bs)
          == [Load(StoreAll(mem, bs, data), bs[0])] + Payloads(StoreAll(mem, bs, data), bs[1..]);
      assert data == [data[0]] + data[1..];
    }
  }

  lemma TwiceOccurs(bs: seq<Block>, i: nat, j: nat)
    requires i < j < |bs| && bs[i] == bs[j]
    ensures Occurs(bs, bs[i]) >= 2
  {
    OccursSplit(bs, j, bs[i]);
    assert bs[i] in bs[..j] && bs[i] in bs[j..] by {
      assert bs[..j][i] == bs[i] && bs[j..][0] == bs[i];
    }
  }

  lemma SubmitAtMostOnce(s: State, op: Op, b: Block)
    requires Partition(s)
    ensures Occurs(SideOf(s, op).submit, b) <= if b < PoolSize(s, op) then 1 else 0
  {
    assert Places(s, op, b) <= 1;
  }

  /** In a partitioned state the submit list names distinct blocks of the pool. */
  lemma SubmitDistinct(s: State, op: Op)
    requires Partition(s)
    ensures DistinctBelow(SideOf(s, op).submit, PoolSize(s, op))
  {
    var bs := SideOf(s, op).submit;
    forall i | 0 <= i < |bs|
      ensures bs[i] < PoolSize(s, op)
    {
      SubmitAtMostOnce(s, op, bs[i]);
      assert bs[i] in bs;
    }
    forall i, j | 0 <= i < j < |bs|
      ensures bs[i] != bs[j]
    {
      SubmitAtMostOnce(s, op, bs[i]);
      if bs[i] == bs[j] {
        TwiceOccurs(bs, i, j);
      }
    }
  }

  lemma HeldIsNowhereElse(s: State, t: nat, op: Op, b: Block)
    requires Partition(s) && t < |s.threads| && Holds(s.threads[t], op, b)
    ensures b !in SideOf(s, op).submit && b !in SideOf(s, op).pending && b !in SideOf(s, op).free
  {
    HeldMember(s.threads, t, op, b);
    assert Places(s, op, b) <= 1;
  }

  lemma SubmittedIsNotPending(s: State, op: Op, b: Block)
    requires Partition(s) && b in SideOf(s, op).pending
    ensures b !in SideOf(s, op).submit
  {
    assert Places(s, op, b) <= 1;
  }

  // ----- write order -----

  /** What writers committed is what the device consumed, then what it was given, then what waits. */
  ghost predicate WriteOrder(s: State)
  {
    s.past.committed == s.past.retired + Payloads(s.wtMem, s.wt.submit) + Payloads(s.wtMem, s.wt.pending)
  }

  lemma CommitKeepsOrder(s: State, t: nat)
    requires WriteOrder(s) && WritesQueued(s.wt) && Enabled(s, Finish(t)) && s.threads[t].WtFilled?
    ensures WriteOrder(FinishBlock(s, t))
  {
    var b := s.threads[t].block;
    PayloadsConcat(s.wtMem, s.wt.submit, [b]);
    PayloadsConcat(s.wtMem, s.wt.pending, [b]);
    assert Payloads(s.wtMem, [b]) == [Load(s.wtMem, b)];
    if s.wt.pending == [] {
      assert Payloads(s.wtMem, s.wt.pending) == [];
    }
  }

  lemma InterruptKeepsWriteOrder(s: State, rdData: seq<Payload>, n: nat)
    requires WriteOrder(s) && |rdData| <= |s.rd.submit| && n <= |s.wt.submit|
    ensures WriteOrder(Interrupted(s, rdData, n))
  {
    var m := WtInterruptMoves(s.wt, n);
    PayloadsMove(s.wtMem, s.past.retired, s.wt.submit, s.wt.pending, n, m);
  }

  lemma PayloadsMove(mem: seq<Payload>, gone: seq<Payload>, submit: seq<Block>, pending: seq<Block>, n: nat, m: nat)
    requires n <= |submit| && m <= |pending|
    ensures gone + Payloads(mem, submit) + Payloads(mem, pending)
      == gone + Payloads(mem, submit[..n]) + Payloads(mem, submit[n..] + pending[..m]) + Payloads(mem, pending[m..])
  {
    PayloadsSplit(mem, submit, n);
    PayloadsSplit(mem, pending, m);
    PayloadsConcat(mem, submit[n..], pending[..m]);
  }

  lemma StepKeepsWriteOrder(s: State, step: Step)
    requires WriteOrder(s) && WritesQueued(s.wt) && Partition(s) && Enabled(s, step)
    ensures WriteOrder(Apply(s, step))
  {
    match step
    case CopyIn(t, _, data) =>
      var b := s.threads[t].block;
      HeldIsNowhereElse(s, t, Write, b);
      StoreElsewhere(s.wtMem, b, data, s.wt.submit);
      StoreElsewhere(s.wtMem, b, data, s.wt.pending);
    case Finish(t) =>
      if s.threads[t].WtFilled? {
        CommitKeepsOrder(s, t);
      }
    case Interrupt(rdData, n) =>
      if s.enable {
        InterruptKeepsWriteOrder(s, rdData, n);
      }
    case _ =>
  }

  // ----- read order -----

  /** The block a reader has taken and not yet delivered. */
  function Undelivered(pc: Pc): (bs: seq<Block>)
    ensures |bs| <= 1
  {
    match pc
    case RdHeld(b) => [b]
    case RdFailed(b) => [b]
    case _ => []
  }

  /** Undelivered payloads, in thread order. */
  function InFlight(mem: seq<Payload>, threads: seq<Pc>): seq<Payload>
  {
    if threads == [] then []
    else InFlight(mem, threads[..|threads| - 1]) + Payloads(mem, Undelivered(threads[|threads| - 1]))
  }

  function Copies(ps: seq<Payload>, p: Payload): nat
  {
    multiset(ps)[p]
  }

  lemma CopiesConcat(ps: seq<Payload>, qs: seq<Payload>, p: Payload)
    ensures Copies(ps + qs, p) == Copies(ps, p) + Copies(qs, p)
  {
  }

  function CarriedCopies(mem: seq<Payload>, pc: Pc, p: Payload): nat
  {
    Copies(Payloads(mem, Undelivered(pc)), p)
  }

  lemma InFlightLast(mem: seq<Payload>, threads: seq<Pc>, p: Payload)
    requires threads != []
    ensures Copies(InFlight(mem, threads), p)
         == Copies(InFlight(mem, threads[..|threads| - 1]), p) + CarriedCopies(mem, threads[|threads| - 1], p)
  {
    var n := |threads| - 1;
    CopiesConcat(InFlight(mem, threads[..n]), Payloads(mem, Undelivered(threads[n])), p);
  }

  function CarriedTotal(mem: seq<Payload>, threads: seq<Pc>, p: Payload): nat
  {
    if threads == [] then 0
    else CarriedTotal(mem, threads[..|threads| - 1], p) + CarriedCopies(mem, threads[|threads| - 1], p)
  }

  lemma {:induction false} InFlightTotal(mem: seq<Payload>, threads: seq<Pc>, p: Payload)
    ensures Copies(InFlight(mem, threads), p) == CarriedTotal(mem, threads, p)
  {
    if threads != [] {
      InFlightLast(mem, threads, p);
      InFlightTotal(mem, threads[..|threads| - 1], p);
    }
  }

  lemma {:induction false} CarriedUpdate(mem: seq<Payload>, threads: seq<Pc>, t: nat, pc: Pc, p: Payload)
    requires t < |threads|
    ensures CarriedTotal(mem, threads[t := pc], p) + CarriedCopies(mem, threads[t], p)
         == CarriedTotal(mem, threads, p) + CarriedCopies(mem, pc, p)
  {
    var n := |threads| - 1;
    if t == n {
      assert threads[t := pc][..n] == threads[..n];
    } else {
      CarriedUpdate(mem, threads[..n], t, pc, p);
      assert threads[t := pc][..n] == threads[..n][t := pc];
    }
  }

  lemma InFlightUpdate(mem: seq<Payload>, threads: seq<Pc>, t: nat, pc: Pc, p: Payload)
    requires t < |threads|
    ensures Copies(InFlight(mem, threads[t := pc]), p) + CarriedCopies(mem, threads[t], p)
         == Copies(InFlight(mem, threads), p) + CarriedCopies(mem, pc, p)
  {
    InFlightTotal(mem, threads, p);
    InFlightTotal(mem, threads[t := pc], p);
    CarriedUpdate(mem, threads, t, pc, p);
  }

  lemma {:induction false} InFlightNone(mem: seq<Payload>, threads: seq<Pc>)
    requires forall t | 0 <= t < |threads| :: Undelivered(threads[t]) == []
    ensures InFlight(mem, threads) == []
  {
    if threads != [] {
      InFlightNone(mem, threads[..|threads| - 1]);
    }
  }

  lemma {:induction false} InFlightOne(mem: seq<Payload>, threads: seq<Pc>, t: nat)
    requires t < |threads| && forall u | 0 <= u < |threads| && u != t :: Undelivered(threads[u]) == []
    ensures InFlight(mem, threads) == Payloads(mem, Undelivered(threads[t]))
  {
    var n := |threads| - 1;
    var init := threads[..n];
    if t == n {
      InFlightNone(mem, init);
    } else {
      assert init[t] == threads[t] && Undelivered(threads[n]) == [];
      InFlightOne(mem, init, t);
      assert Payloads(mem, Undelivered(threads[n])) == [];
    }
  }

  /** The memory of undelivered blocks does not change between the two memories. */
  lemma {:induction false} InFlightStable(mem: seq<Payload>, mem1: seq<Payload>, threads: seq<Pc>)
    requires forall t | 0 <= t < |threads| ::
      Payloads(mem, Undelivered(threads[t])) == Payloads(mem1, Undelivered(threads[t]))
    ensures InFlight(mem, threads) == InFlight(mem1, threads)
  {
    if threads != [] {
      InFlightStable(mem, mem1, threads[..|threads| - 1]);
    }
  }

  /** Payload p completed as often as it is delivered, in flight or pending. */
  predicate ConservedFor(s: State, p: Payload)
  {
    Copies(s.past.completed, p)
      == Copies(s.past.delivered, p) + Copies(InFlight(s.rdMem, s.threads), p)
         + Copies(Payloads(s.rdMem, s.rd.pending), p)
  }

  /** Nothing completed is lost or duplicated on its way to the readers. */
  ghost predicate ReadsConserved(s: State)
  {
    forall p :: ConservedFor(s, p)
  }

  /** Delivered, then in flight, then pending: exactly the completion order. */
  ghost predicate ReadOrder(s: State)
  {
    s.past.completed == s.past.delivered + InFlight(s.rdMem, s.threads) + Payloads(s.rdMem, s.rd.pending)
  }

  /** At most one reader has an undelivered block. */
  ghost predicate SingleReader(s: State)
  {
    forall t, u | 0 <= t < u < |s.threads| :: Undelivered(s.threads[t]) == [] || Undelivered(s.threads[u]) == []
  }

  // ----- a completion interrupt -----

  function Filled(s: State, rdData: seq<Payload>): seq<Payload>
    requires |rdData| <= |s.rd.submit|
  {
    StoreAll(s.rdMem, s.rd.submit[..|rdData|], rdData)
  }

  lemma UntouchedByCompletion(s: State, rdData: seq<Payload>, b: Block)
    requires |rdData| <= |s.rd.submit| && b !in s.rd.submit
    ensures Load(Filled(s, rdData), b) == Load(s.rdMem, b)
  {
    StoreAllElsewhere(s.rdMem, s.rd.submit[..|rdData|], rdData, b);
  }

  lemma CompletedPayloads(s: State, rdData: seq<Payload>)
    requires Partition(s) && |rdData| <= |s.rd.submit| && |s.rdMem| == s.rdNr
    ensures Payloads(Filled(s, rdData), s.rd.submit[..|rdData|]) == rdData
  {
    SubmitDistinct(s, Read);
    StoreAllReads(s.rdMem, s.rd.submit[..|rdData|], rdData);
  }

  /** The device fills submitted blocks only: pending payloads grow by exactly the completed ones. */
  lemma CompletionPending(s: State, rdData: seq<Payload>)
    requires Partition(s) && |rdData| <= |s.rd.submit| && |s.rdMem| == s.rdNr
    ensures Payloads(Filled(s, rdData), RdInterrupt(s.rd, |rdData|).pending) == Payloads(s.rdMem, s.rd.pending) + rdData
  {
    var n := |rdData|;
    var m := RdInterruptMoves(s.rd, n);
    CompletedPayloads(s, rdData);
    PayloadsConcat(Filled(s, rdData), s.rd.pending, s.rd.submit[..n]);
    forall i | 0 <= i < |s.rd.pending|
      ensures Load(Filled(s, rdData), s.rd.pending[i]) == Load(s.rdMem, s.rd.pending[i])
    {
      SubmittedIsNotPending(s, Read, s.rd.pending[i]);
      UntouchedByCompletion(s, rdData, s.rd.pending[i]);
    }
    assert Payloads(Filled(s, rdData), s.rd.pending) == Payloads(s.rdMem, s.rd.pending);
  }

  /** Payloads already taken by readers are not overwritten. */
  lemma CompletionInFlight(s: State, rdData: seq<Payload>)
    requires Partition(s) && |rdData| <= |s.rd.submit|
    ensures InFlight(Filled(s, rdData), s.threads) == InFlight(s.rdMem, s.threads)
  {
    forall t | 0 <= t < |s.threads|
      ensures Payloads(s.rdMem, Undelivered(s.threads[t])) == Payloads(Filled(s, rdData), Undelivered(s.threads[t]))
    {
      if Undelivered(s.threads[t]) != [] {
        HeldIsNowhereElse(s, t, Read, s.threads[t].block);
        UntouchedByCompletion(s, rdData, s.threads[t].block);
      }
    }
    InFlightStable(s.rdMem, Filled(s, rdData), s.threads);
  }

  // ----- conservation of reads over any number of readers -----

  /** What payload p weighs outside the threads. */
  function Shelved(s: State, p: Payload): nat
  {
    Copies(s.past.delivered, p) + Copies(Payloads(s.rdMem, s.rd.pending), p)
  }

  /** A thread's step conserves when what it gives up is what is delivered or pending again. */
  lemma ReaderConserves(s: State, r: State, t: nat, pc: Pc, p: Payload)
    requires ConservedFor(s, p) && t < |s.threads| && r.threads == s.threads && r.rdMem == s.rdMem
    requires r.past.completed == s.past.completed
    requires Shelved(r, p) + CarriedCopies(s.rdMem, pc, p) == Shelved(s, p) + CarriedCopies(s.rdMem, s.threads[t], p)
    ensures ConservedFor(SetPc(r, t, pc), p)
  {
    InFlightUpdate(s.rdMem, s.threads, t, pc, p);
  }

  lemma HeadPayload(mem: seq<Payload>, bs: seq<Block>, p: Payload)
    requires bs != []
    ensures Copies(Payloads(mem, bs), p) == Copies(Payloads(mem, [bs[0]]), p) + Copies(Payloads(mem, bs[1..]), p)
  {
    PayloadsSplit(mem, bs, 1);
    assert bs[..1] == [bs[0]];
    CopiesConcat(Payloads(mem, [bs[0]]), Payloads(mem, bs[1..]), p);
  }

  lemma TakeConservesReads(s: State, t: nat, op: Op, nonblock: bool, p: Payload)
    requires ConservedFor(s, p) && t < |s.threads| && (s.threads[t].Checked? || s.threads[t].Waiting?)
    ensures ConservedFor(TakeOrWait(s, t, op, nonblock), p)
  {
    if op == Read && s.rd.pending != [] {
      HeadPayload(s.rdMem, s.rd.pending, p);
      ReaderConserves(s, s.(rd := RdTake(s.rd)), t, RdHeld(s.rd.pending[0]), p);
    } else if op == Write && s.wt.free != [] {
      ReaderConserves(s, s.(wt := WtTake(s.wt)), t, WtHeld(s.wt.free[0]), p);
    } else {
      ReaderConserves(s, s, t, if nonblock then Leaving else Waiting(op), p);
    }
  }

  lemma CopiedOutConservesReads(s: State, t: nat, ok: bool, p: Payload)
    requires ConservedFor(s, p) && t < |s.threads| && s.threads[t].RdHeld?
    ensures ConservedFor(CopiedOut(s, t, ok), p)
  {
    var b := s.threads[t].block;
    assert Payloads(s.rdMem, [b]) == [Load(s.rdMem, b)];
    if ok {
      CopiesConcat(s.past.delivered, [Load(s.rdMem, b)], p);
      ReaderConserves(s, s.(past := s.past.(delivered := s.past.delivered + [Load(s.rdMem, b)])), t, RdCopied(b), p);
    } else {
      ReaderConserves(s, s, t, RdFailed(b), p);
    }
  }

  lemma CopiedInConservesReads(s: State, t: nat, ok: bool, data: Payload, p: Payload)
    requires ConservedFor(s, p) && t < |s.threads| && s.threads[t].WtHeld?
    ensures ConservedFor(CopiedIn(s, t, ok, data), p)
  {
    var b := s.threads[t].block;
    ReaderConserves(s, s.(wtMem := Store(s.wtMem, b, data)), t, if ok then WtFilled(b) else WtFailed(b), p);
  }

  lemma RdFinishConservesReads(s: State, t: nat, p: Payload)
    requires ConservedFor(s, p) && t < |s.threads| && (s.threads[t].RdCopied? || s.threads[t].RdFailed?)
    ensures ConservedFor(FinishBlock(s, t), p)
  {
    var b := s.threads[t].block;
    if s.threads[t].RdCopied? {
      ReaderConserves(s, s.(rd := RdRelease(s.rd, b)), t, RdRefilling, p);
    } else {
      HeadPayload(s.rdMem, [b] + s.rd.pending, p);
      ReaderConserves(s, s.(rd := RdPutBack(s.rd, b)), t, Leaving, p);
    }
  }

  lemma FinishConservesReads(s: State, t: nat, p: Payload)
    requires ConservedFor(s, p) && Enabled(s, Finish(t))
    ensures ConservedFor(FinishBlock(s, t), p)
  {
    if s.threads[t].RdCopied? || s.threads[t].RdFailed? {
      RdFinishConservesReads(s, t, p);
    } else {
      InFlightUpdate(s.rdMem, s.threads, t, Leaving, p);
    }
  }

  lemma AwakenConservesReads(s: State, t: nat, signalled: bool, p: Payload)
    requires ConservedFor(s, p) && t < |s.threads| && s.threads[t].Waiting?
    ensures ConservedFor(Awaken(s, t, signalled), p)
  {
    if signalled || !s.enable {
      ReaderConserves(s, s, t, Leaving, p);
    } else {
      TakeConservesReads(s, t, s.threads[t].op, false, p);
    }
  }

  lemma RefillConservesReads(s: State, t: nat, p: Payload)
    requires ConservedFor(s, p) && t < |s.threads| && s.threads[t].RdRefilling?
    ensures ConservedFor(SetPc(Refilled(s), t, Leaving), p)
  {
    RdRefillMoves(s.rd);
    ReaderConserves(s, Refilled(s), t, Leaving, p);
  }

  lemma InterruptConservesReads(s: State, rdData: seq<Payload>, n: nat, p: Payload)
    requires ConservedFor(s, p) && Partition(s) && |s.rdMem| == s.rdNr
    requires |rdData| <= |s.rd.submit| && n <= |s.wt.submit|
    ensures ConservedFor(Interrupted(s, rdData, n), p)
  {
    CompletionPending(s, rdData);
    CompletionInFlight(s, rdData);
    CopiesConcat(s.past.completed, rdData, p);
    CopiesConcat(Payloads(s.rdMem, s.rd.pending), rdData, p);
  }

  lemma InitConservesReads(s: State, p: Payload)
    requires Quiesced(s) && s.quiet
    ensures ConservedFor(ListsInitialised(s), p)
  {
    InFlightNone(s.rdMem, s.threads);
  }

  lemma ThreadConservesReads(s: State, step: Step, p: Payload)
    requires ConservedFor(s, p) && Enabled(s, step) && Mover(step) >= 0
    ensures ConservedFor(Apply(s, step), p)
  {
    match step
    case Enter(t, op) => ReaderConserves(s, s.(rwCnt := s.rwCnt + 1), t, Entered(op), p);
    case Check(t, sizeOk) => ReaderConserves(s, s, t, CheckEntry(s, t, sizeOk).threads[t], p);
    case Try(t, nonblock) => TakeConservesReads(s, t, s.threads[t].op, nonblock, p);
    case Wake(t, signalled) => AwakenConservesReads(s, t, signalled, p);
    case CopyOut(t, ok) => CopiedOutConservesReads(s, t, ok, p);
    case CopyIn(t, ok, data) => CopiedInConservesReads(s, t, ok, data, p);
    case Finish(t) => FinishConservesReads(s, t, p);
    case Refill(t) => RefillConservesReads(s, t, p);
    case Leave(t) => ReaderConserves(s, s.(rwCnt := s.rwCnt - 1), t, Idle, p);
  }

  lemma ControlConservesReads(s: State, step: Step, p: Payload)
    requires ConservedFor(s, p) && Enabled(s, step) && Mover(step) < 0 && !step.InitLists?
    requires step.Interrupt? ==> !s.enable
    ensures ConservedFor(Apply(s, step), p)
  {
    RdRefillMoves(s.rd);
    var q := Apply(s, step);
    assert q.rd.pending == s.rd.pending && q.rdMem == s.rdMem && q.threads == s.threads && q.past == s.past;
  }

  /** No step loses or duplicates a payload, however many readers there are. */
  lemma StepConservesReads(s: State, step: Step, p: Payload)
    requires ConservedFor(s, p) && Partition(s) && Counted(s) && Quiesced(s) && Legal(s, step)
    ensures ConservedFor(Apply(s, step), p)
  {
    if Mover(step) >= 0 {
      ThreadConservesReads(s, step, p);
    } else if step.Interrupt? && s.enable {
      InterruptConservesReads(s, step.rdData, step.wtCnt, p);
    } else if step.InitLists? {
      InitConservesReads(s, p);
    } else {
      ControlConservesReads(s, step, p);
    }
  }

  // ----- order of reads with a single reader -----

  lemma {:induction false} InFlightSame(mem: seq<Payload>, threads: seq<Pc>, t: nat, pc: Pc)
    requires t < |threads| && Undelivered(pc) == Undelivered(threads[t])
    ensures InFlight(mem, threads[t := pc]) == InFlight(mem, threads)
  {
    var n := |threads| - 1;
    var changed := threads[t := pc];
    if t == n {
      assert changed[..n] == threads[..n];
    } else {
      InFlightSame(mem, threads[..n], t, pc);
      assert changed[..n] == threads[..n][t := pc];
    }
  }

  /** With thread t the only one that may carry a payload, the payloads in flight are its own. */
  lemma OnlyCarrier(s: State, t: nat, pc: Pc)
    requires SingleReader(s) && t < |s.threads| && Undelivered(s.threads[t]) != []
    ensures InFlight(s.rdMem, s.threads) == Payloads(s.rdMem, Undelivered(s.threads[t]))
    ensures InFlight(s.rdMem, s.threads[t := pc]) == Payloads(s.rdMem, Undelivered(pc))
  {
    forall u | 0 <= u < |s.threads| && u != t
      ensures Undelivered(s.threads[u]) == []
    {
    }
    InFlightOne(s.rdMem, s.threads, t);
    InFlightOne(s.rdMem, s.threads[t := pc], t);
  }

  lemma Regroup(ps: seq<Payload>, qs: seq<Payload>, rs: seq<Payload>)
    ensures ps + qs + rs == ps + [] + (qs + rs)
  {
  }

  lemma TakeBlockKeepsReadOrder(s: State, t: nat)
    requires ReadOrder(s) && t < |s.threads| && s.rd.pending != []
    requires s.threads[t].Checked? || s.threads[t].Waiting?
    requires SingleReader(SetPc(s.(rd := RdTake(s.rd)), t, RdHeld(s.rd.pending[0])))
    ensures ReadOrder(SetPc(s.(rd := RdTake(s.rd)), t, RdHeld(s.rd.pending[0])))
  {
    var b := s.rd.pending[0];
    var q := SetPc(s.(rd := RdTake(s.rd)), t, RdHeld(b));
    TakenPayloads(s, q, t, b);
    PayloadsSplit(s.rdMem, s.rd.pending, 1);
    assert s.rd.pending[..1] == [b];
    Regroup(s.past.delivered, Payloads(s.rdMem, [b]), Payloads(s.rdMem, s.rd.pending[1..]));
  }

  lemma TakenPayloads(s: State, q: State, t: nat, b: Block)
    requires t < |s.threads| && Undelivered(s.threads[t]) == []
    requires q.threads == s.threads[t := RdHeld(b)] && q.rdMem == s.rdMem && SingleReader(q)
    ensures InFlight(s.rdMem, s.threads) == [] && InFlight(s.rdMem, q.threads) == Payloads(s.rdMem, [b])
  {
    OnlyCarrier(q, t, s.threads[t]);
    assert q.threads[t := s.threads[t]] == s.threads;
  }

  lemma TakeKeepsReadOrder(s: State, t: nat, op: Op, nonblock: bool)
    requires ReadOrder(s) && t < |s.threads| && (s.threads[t].Checked? || s.threads[t].Waiting?)
    requires SingleReader(TakeOrWait(s, t, op, nonblock))
    ensures ReadOrder(TakeOrWait(s, t, op, nonblock))
  {
    if op == Read && s.rd.pending != [] {
      TakeBlockKeepsReadOrder(s, t);
    } else {
      InFlightSame(s.rdMem, s.threads, t, TakeOrWait(s, t, op, nonblock).threads[t]);
    }
  }

  lemma CopiedOutKeepsReadOrder(s: State, t: nat, ok: bool)
    requires ReadOrder(s) && SingleReader(s) && t < |s.threads| && s.threads[t].RdHeld?
    ensures ReadOrder(CopiedOut(s, t, ok))
  {
    var b := s.threads[t].block;
    if ok {
      OnlyCarrier(s, t, RdCopied(b));
      assert Payloads(s.rdMem, [b]) == [Load(s.rdMem, b)];
      assert CopiedOut(s, t, ok).past.delivered + [] == s.past.delivered + Payloads(s.rdMem, [b]);
      assert InFlight(s.rdMem, CopiedOut(s, t, ok).threads) == [];
    } else {
      InFlightSame(s.rdMem, s.threads, t, RdFailed(b));
    }
  }

  lemma AwakenKeepsReadOrder(s: State, t: nat, signalled: bool)
    requires ReadOrder(s) && t < |s.threads| && s.threads[t].Waiting? && SingleReader(Awaken(s, t, signalled))
    ensures ReadOrder(Awaken(s, t, signalled))
  {
    if signalled || !s.enable {
      InFlightSame(s.rdMem, s.threads, t, Leaving);
    } else {
      TakeKeepsReadOrder(s, t, s.threads[t].op, false);
    }
  }

  lemma InterruptKeepsReadOrder(s: State, rdData: seq<Payload>, n: nat)
    requires ReadOrder(s) && Partition(s) && |s.rdMem| == s.rdNr && |rdData| <= |s.rd.submit| && n <= |s.wt.submit|
    ensures ReadOrder(Interrupted(s, rdData, n))
  {
    CompletionPending(s, rdData);
    CompletionInFlight(s, rdData);
  }

  lemma PutBackKeepsReadOrder(s: State, t: nat)
    requires ReadOrder(s) && SingleReader(s) && t < |s.threads| && s.threads[t].RdFailed?
    ensures ReadOrder(SetPc(s.(rd := RdPutBack(s.rd, s.threads[t].block)), t, Leaving))
  {
    var b := s.threads[t].block;
    var q := SetPc(s.(rd := RdPutBack(s.rd, b)), t, Leaving);
    OnlyCarrier(s, t, Leaving);
    assert InFlight(q.rdMem, q.threads) == [];
    PayloadsConcat(s.rdMem, [b], s.rd.pending);
    Regroup(s.past.delivered, Payloads(s.rdMem, [b]), Payloads(s.rdMem, s.rd.pending));
  }

  lemma FinishKeepsReadOrder(s: State, t: nat)
    requires ReadOrder(s) && SingleReader(s) && Enabled(s, Finish(t))
    ensures ReadOrder(FinishBlock(s, t))
  {
    if s.threads[t].RdFailed? {
      PutBackKeepsReadOrder(s, t);
    } else {
      InFlightSame(s.rdMem, s.threads, t, FinishBlock(s, t).threads[t]);
    }
  }

  /** With one reader at a time every step keeps delivery in completion order. */
  lemma StepKeepsReadOrder(s: State, step: Step)
    requires ReadOrder(s) && SingleReader(s) && Partition(s) && Counted(s) && Quiesced(s) && Legal(s, step)
    requires SingleReader(Apply(s, step))
    ensures ReadOrder(Apply(s, step))
  {
    match step
    case Try(t, nonblock) => TakeKeepsReadOrder(s, t, s.threads[t].op, nonblock);
    case Wake(t, signalled) => AwakenKeepsReadOrder(s, t, signalled);
    case CopyOut(t, ok) => CopiedOutKeepsReadOrder(s, t, ok);
    case Finish(t) => FinishKeepsReadOrder(s, t);
    case Interrupt(rdData, n) =>
      if s.enable {
        InterruptKeepsReadOrder(s, rdData, n);
      }
    case InitLists => InFlightNone(s.rdMem, s.threads);
    case _ => PlainStepKeepsReadOrder(s, step);
  }

  lemma PlainStepKeepsReadOrder(s: State, step: Step)
    requires ReadOrder(s) && Enabled(s, step)
    requires !step.Try? && !step.Wake? && !step.CopyOut? && !step.Finish? && !step.Interrupt? && !step.InitLists?
    ensures ReadOrder(Apply(s, step))
  {
    RdRefillMoves(s.rd);
    StepMovesOne(s, step);
    var t := Mover(step);
    if t >= 0 {
      InFlightSame(s.rdMem, s.threads, t, Apply(s, step).threads[t]);
    }
  }
}
