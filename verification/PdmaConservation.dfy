/**
 Conservation: no step but list initialisation changes in how many places a block is, so in every
 reachable state each block of a direction is in exactly one place.
 */
module PdmaConservation {
  import opened PdmaLists
  import opened PdmaProtocol

  // ----- counting places -----

  function Occurs(bs: seq<Block>, b: Block): nat
  {
    multiset(bs)[b]
  }

  /** Whether a thread at pc holds block b of the direction. */
  predicate Holds(pc: Pc, op: Op, b: Block)
  {
    match op
    case Read => pc == RdHeld(b) || pc == RdCopied(b) || pc == RdFailed(b)
    case Write => pc == WtHeld(b) || pc == WtFilled(b) || pc == WtFailed(b)
  }

  function HoldsCount(pc: Pc, op: Op, b: Block): nat
  {
    if Holds(pc, op, b) then 1 else 0
  }

  function HeldCount(threads: seq<Pc>, op: Op, b: Block): nat
  {
    if threads == [] then 0
    else HeldCount(threads[..|threads| - 1], op, b) + HoldsCount(threads[|threads| - 1], op, b)
  }

  function SideOf(s: State, op: Op): Side
  {
    if op == Read then s.rd else s.wt
  }

  function PoolSize(s: State, op: Op): nat
  {
    if op == Read then s.rdNr else s.wtNr
  }

  function Listed(side: Side, b: Block): nat
  {
    Occurs(side.free, b) + Occurs(side.submit, b) + Occurs(side.pending, b)
  }

  /** In how many places block b of a direction is: the three lists, the threads, the orphans. */
  function Places(s: State, op: Op, b: Block): nat
  {
    Listed(SideOf(s, op), b) + HeldCount(s.threads, op, b) + if op == Write then Occurs(s.orphans, b) else 0
  }

  /** Every block of the pool is in exactly one place, and nothing else is anywhere. */
  ghost predicate Partition(s: State)
  {
    forall op, b: Block :: Places(s, op, b) == if b < PoolSize(s, op) then 1 else 0
  }

  lemma {:induction false} HeldUpdate(threads: seq<Pc>, t: nat, pc: Pc, op: Op, b: Block)
    requires t < |threads|
    ensures HeldCount(threads[t := pc], op, b) + HoldsCount(threads[t], op, b)
         == HeldCount(threads, op, b) + HoldsCount(pc, op, b)
  {
    var n := |threads| - 1;
    if t == n {
      assert threads[t := pc][..n] == threads[..n];
    } else {
      HeldUpdate(threads[..n], t, pc, op, b);
      assert threads[t := pc][..n] == threads[..n][t := pc];
    }
  }

  lemma {:induction false} HeldMember(threads: seq<Pc>, t: nat, op: Op, b: Block)
    requires t < |threads| && Holds(threads[t], op, b)
    ensures HeldCount(threads, op, b) >= 1
  {
    if t < |threads| - 1 {
      HeldMember(threads[..|threads| - 1], t, op, b);
    }
  }

  /** Two threads holding the same block count twice. */
  lemma {:induction false} HeldTwice(threads: seq<Pc>, t: nat, u: nat, op: Op, b: Block)
    requires t < u < |threads| && Holds(threads[t], op, b) && Holds(threads[u], op, b)
    ensures HeldCount(threads, op, b) >= 2
  {
    if u < |threads| - 1 {
      HeldTwice(threads[..|threads| - 1], t, u, op, b);
    } else {
      HeldMember(threads[..|threads| - 1], t, op, b);
    }
  }

  lemma {:induction false} HeldNone(threads: seq<Pc>, op: Op, b: Block)
    requires forall t | 0 <= t < |threads| :: !Holds(threads[t], op, b)
    ensures HeldCount(threads, op, b) == 0
  {
    if threads != [] {
      HeldNone(threads[..|threads| - 1], op, b);
    }
  }

  lemma {:induction false} HeldSome(threads: seq<Pc>, op: Op, b: Block) returns (t: nat)
    requires HeldCount(threads, op, b) > 0
    ensures t < |threads| && Holds(threads[t], op, b)
  {
    t := |threads| - 1;
    if !Holds(threads[t], op, b) {
      t := HeldSome(threads[..t], op, b);
    }
  }

  lemma OccursSplit(bs: seq<Block>, m: nat, b: Block)
    requires m <= |bs|
    ensures Occurs(bs, b) == Occurs(bs[..m], b) + Occurs(bs[m..], b)
  {
    assert bs == bs[..m] + bs[m..];
  }

  lemma OccursConcat(bs: seq<Block>, cs: seq<Block>, b: Block)
    ensures Occurs(bs + cs, b) == Occurs(bs, b) + Occurs(cs, b)
  {
  }

  lemma {:induction false} NumberedOnce(n: nat, b: Block)
    ensures Occurs(Numbered(n), b) == if b < n then 1 else 0
  {
    if n > 0 {
      NumberedOnce(n - 1, b);
      assert Numbered(n) == Numbered(n - 1) + [n - 1];
    }
  }

  // ----- the list operations conserve -----

  lemma RdRefillConserves(r: Side, b: Block)
    ensures Listed(RdRefill(r), b) == Listed(r, b)
  {
    var m := Moved(r.submitCnt, |r.free|);
    RdRefillMoves(r);
    OccursSplit(r.free, m, b);
    OccursConcat(r.submit, r.free[..m], b);
  }

  lemma RdInterruptConserves(r: Side, n: nat, b: Block)
    requires n <= |r.submit|
    ensures Listed(RdInterrupt(r, n), b) == Listed(r, b)
  {
    var m := RdInterruptMoves(r, n);
    OccursSplit(r.free, m, b);
    OccursSplit(r.submit, n, b);
    OccursConcat(r.submit[n..], r.free[..m], b);
    OccursConcat(r.pending, r.submit[..n], b);
  }

  lemma WtInterruptConserves(w: Side, n: nat, b: Block)
    requires n <= |w.submit|
    ensures Listed(WtInterrupt(w, n), b) == Listed(w, b)
  {
    var m := WtInterruptMoves(w, n);
    OccursSplit(w.pending, m, b);
    OccursSplit(w.submit, n, b);
    OccursConcat(w.submit[n..], w.pending[..m], b);
    OccursConcat(w.free, w.submit[..n], b);
  }

  lemma HeadCounts(bs: seq<Block>, b: Block)
    requires bs != []
    ensures Occurs(bs, b) == Occurs(bs[1..], b) + if b == bs[0] then 1 else 0
  {
    OccursSplit(bs, 1, b);
    assert bs[..1] == [bs[0]];
  }

  lemma PushCounts(bs: seq<Block>, c: Block, b: Block)
    ensures Occurs(bs + [c], b) == Occurs(bs, b) + if b == c then 1 else 0
    ensures Occurs([c] + bs, b) == Occurs(bs, b) + if b == c then 1 else 0
  {
  }

  /** Places other than the threads. */
  function Stored(s: State, op: Op, b: Block): nat
  {
    Listed(SideOf(s, op), b) + if op == Write then Occurs(s.orphans, b) else 0
  }

  /** A step of one thread conserves when what the thread gives up is what the lists gain. */
  lemma ThreadStepConserves(s: State, r: State, t: nat, pc: Pc, op: Op, b: Block)
    requires t < |s.threads| && r.threads == s.threads
    requires Stored(r, op, b) + HoldsCount(pc, op, b) == Stored(s, op, b) + HoldsCount(s.threads[t], op, b)
    ensures Places(SetPc(r, t, pc), op, b) == Places(s, op, b)
  {
    HeldUpdate(s.threads, t, pc, op, b);
  }

  lemma TakeReadConserves(s: State, t: nat, nonblock: bool, op: Op, b: Block)
    requires t < |s.threads| && (s.threads[t].Checked? || s.threads[t].Waiting?)
    ensures Places(TakeOrWait(s, t, Read, nonblock), op, b) == Places(s, op, b)
  {
    if s.rd.pending != [] {
      HeadCounts(s.rd.pending, b);
      ThreadStepConserves(s, s.(rd := RdTake(s.rd)), t, RdHeld(s.rd.pending[0]), op, b);
    } else {
      ThreadStepConserves(s, s, t, if nonblock then Leaving else Waiting(Read), op, b);
    }
  }

  lemma TakeWriteConserves(s: State, t: nat, nonblock: bool, op: Op, b: Block)
    requires t < |s.threads| && (s.threads[t].Checked? || s.threads[t].Waiting?)
    ensures Places(TakeOrWait(s, t, Write, nonblock), op, b) == Places(s, op, b)
  {
    if s.wt.free != [] {
      HeadCounts(s.wt.free, b);
      ThreadStepConserves(s, s.(wt := WtTake(s.wt)), t, WtHeld(s.wt.free[0]), op, b);
    } else {
      ThreadStepConserves(s, s, t, if nonblock then Leaving else Waiting(Write), op, b);
    }
  }

  lemma TakeConserves(s: State, t: nat, taken: Op, nonblock: bool, op: Op, b: Block)
    requires t < |s.threads| && (s.threads[t].Checked? || s.threads[t].Waiting?)
    ensures Places(TakeOrWait(s, t, taken, nonblock), op, b) == Places(s, op, b)
  {
    match taken
    case Read => TakeReadConserves(s, t, nonblock, op, b);
    case Write => TakeWriteConserves(s, t, nonblock, op, b);
  }

  lemma CommitCounts(w: Side, c: Block, b: Block)
    ensures Listed(WtCommit(w, c), b) == Listed(w, b) + if b == c then 1 else 0
  {
    PushCounts(w.submit, c, b);
    PushCounts(w.pending, c, b);
  }

  lemma ReleaseConserves(s: State, t: nat, op: Op, b: Block)
    requires t < |s.threads| && s.threads[t].RdCopied?
    ensures Places(FinishBlock(s, t), op, b) == Places(s, op, b)
  {
    var c := s.threads[t].block;
    PushCounts(s.rd.free, c, b);
    ThreadStepConserves(s, s.(rd := RdRelease(s.rd, c)), t, RdRefilling, op, b);
  }

  lemma RdPutBackConserves(s: State, t: nat, op: Op, b: Block)
    requires t < |s.threads| && s.threads[t].RdFailed?
    ensures Places(FinishBlock(s, t), op, b) == Places(s, op, b)
  {
    var c := s.threads[t].block;
    PushCounts(s.rd.pending, c, b);
    ThreadStepConserves(s, s.(rd := RdPutBack(s.rd, c)), t, Leaving, op, b);
  }

  lemma WtPutBackConserves(s: State, t: nat, op: Op, b: Block)
    requires t < |s.threads| && s.threads[t].WtFailed?
    ensures Places(FinishBlock(s, t), op, b) == Places(s, op, b)
  {
    var c := s.threads[t].block;
    PushCounts(s.wt.free, c, b);
    ThreadStepConserves(s, s.(wt := WtPutBack(s.wt, c)), t, Leaving, op, b);
  }

  lemma CommitConserves(s: State, t: nat, op: Op, b: Block)
    requires t < |s.threads| && s.threads[t].WtFilled?
    ensures Places(FinishBlock(s, t), op, b) == Places(s, op, b)
  {
    var c := s.threads[t].block;
    if s.enable {
      CommitCounts(s.wt, c, b);
      ThreadStepConserves(s, s.(wt := WtCommit(s.wt, c),
        past := s.past.(committed := s.past.committed + [Load(s.wtMem, c)])), t, Leaving, op, b);
    } else {
      PushCounts(s.orphans, c, b);
      ThreadStepConserves(s, s.(orphans := s.orphans + [c]), t, Leaving, op, b);
    }
  }

  lemma FinishConserves(s: State, t: nat, op: Op, b: Block)
    requires Enabled(s, Finish(t))
    ensures Places(FinishBlock(s, t), op, b) == Places(s, op, b)
  {
    if s.threads[t].RdCopied? {
      ReleaseConserves(s, t, op, b);
    } else if s.threads[t].RdFailed? {
      RdPutBackConserves(s, t, op, b);
    } else if s.threads[t].WtFailed? {
      WtPutBackConserves(s, t, op, b);
    } else {
      CommitConserves(s, t, op, b);
    }
  }

  /** Neither pc holds a block. */
  lemma EmptyHandedConserves(s: State, r: State, t: nat, pc: Pc, op: Op, b: Block)
    requires t < |s.threads| && r.threads == s.threads && r.orphans == s.orphans
    requires r.rd == s.rd && r.wt == s.wt
    requires HoldsCount(s.threads[t], op, b) == HoldsCount(pc, op, b)
    ensures Places(SetPc(r, t, pc), op, b) == Places(s, op, b)
  {
    ThreadStepConserves(s, r, t, pc, op, b);
  }

  lemma AwakenConserves(s: State, t: nat, signalled: bool, op: Op, b: Block)
    requires t < |s.threads| && s.threads[t].Waiting?
    ensures Places(Awaken(s, t, signalled), op, b) == Places(s, op, b)
  {
    if signalled || !s.enable {
      EmptyHandedConserves(s, s, t, Leaving, op, b);
    } else {
      TakeConserves(s, t, s.threads[t].op, false, op, b);
    }
  }

  lemma CopiedOutConserves(s: State, t: nat, ok: bool, op: Op, b: Block)
    requires t < |s.threads| && s.threads[t].RdHeld?
    ensures Places(CopiedOut(s, t, ok), op, b) == Places(s, op, b)
  {
    var c := s.threads[t].block;
    var past := s.past.(delivered := s.past.delivered + [Load(s.rdMem, c)]);
    if ok {
      EmptyHandedConserves(s, s.(past := past), t, RdCopied(c), op, b);
    } else {
      EmptyHandedConserves(s, s, t, RdFailed(c), op, b);
    }
  }

  lemma CopiedInConserves(s: State, t: nat, ok: bool, data: Payload, op: Op, b: Block)
    requires t < |s.threads| && s.threads[t].WtHeld?
    ensures Places(CopiedIn(s, t, ok, data), op, b) == Places(s, op, b)
  {
    var c := s.threads[t].block;
    EmptyHandedConserves(s, s.(wtMem := Store(s.wtMem, c, data)), t, if ok then WtFilled(c) else WtFailed(c), op, b);
  }

  lemma RefilledConserves(s: State, op: Op, b: Block)
    ensures Places(Refilled(s), op, b) == Places(s, op, b)
  {
    RdRefillConserves(s.rd, b);
  }

  lemma RefillConserves(s: State, t: nat, op: Op, b: Block)
    requires t < |s.threads| && s.threads[t].RdRefilling?
    ensures Places(SetPc(Refilled(s), t, Leaving), op, b) == Places(s, op, b)
  {
    RefilledConserves(s, op, b);
    EmptyHandedConserves(Refilled(s), Refilled(s), t, Leaving, op, b);
  }

  lemma InterruptConserves(s: State, rdData: seq<Payload>, wtCnt: nat, op: Op, b: Block)
    requires |rdData| <= |s.rd.submit| && wtCnt <= |s.wt.submit|
    ensures Places(Interrupted(s, rdData, wtCnt), op, b) == Places(s, op, b)
  {
    RdInterruptConserves(s.rd, |rdData|, b);
    WtInterruptConserves(s.wt, wtCnt, b);
  }

  lemma ThreadConserves(s: State, step: Step, op: Op, b: Block)
    requires Enabled(s, step) && Mover(step) >= 0
    ensures Places(Apply(s, step), op, b) == Places(s, op, b)
  {
    match step
    case Enter(t, o) => EmptyHandedConserves(s, s.(rwCnt := s.rwCnt + 1), t, Entered(o), op, b);
    case Check(t, sizeOk) => EmptyHandedConserves(s, s, t, CheckEntry(s, t, sizeOk).threads[t], op, b);
    case Try(t, nonblock) => TakeConserves(s, t, s.threads[t].op, nonblock, op, b);
    case Wake(t, signalled) => AwakenConserves(s, t, signalled, op, b);
    case CopyOut(t, ok) => CopiedOutConserves(s, t, ok, op, b);
    case CopyIn(t, ok, data) => CopiedInConserves(s, t, ok, data, op, b);
    case Finish(t) => FinishConserves(s, t, op, b);
    case Refill(t) => RefillConserves(s, t, op, b);
    case Leave(t) => EmptyHandedConserves(s, s.(rwCnt := s.rwCnt - 1), t, Idle, op, b);
  }

  /** No step but list initialisation changes in how many places any block is. */
  lemma StepConserves(s: State, step: Step, op: Op, b: Block)
    requires Enabled(s, step) && step != InitLists
    ensures Places(Apply(s, step), op, b) == Places(s, op, b)
  {
    if Mover(step) >= 0 {
      ThreadConserves(s, step, op, b);
    } else if step.Interrupt? && s.enable {
      InterruptConserves(s, step.rdData, step.wtCnt, op, b);
    } else if step.StartRefill? {
      RefilledConserves(s, op, b);
    }
  }

  /** List initialisation puts every block on a free list, whatever threads still hold. */
  lemma InitPlaces(s: State, op: Op, b: Block)
    ensures Places(ListsInitialised(s), op, b)
         == (if b < PoolSize(s, op) then 1 else 0) + HeldCount(s.threads, op, b)
  {
    NumberedOnce(PoolSize(s, op), b);
  }

  ghost predicate NothingHeld(s: State)
  {
    forall t, op, b: Block | 0 <= t < |s.threads| :: !Holds(s.threads[t], op, b)
  }

  /** Initialising the lists keeps the partition exactly when no thread holds a block. */
  lemma InitPartitionIff(s: State)
    ensures Partition(ListsInitialised(s)) <==> NothingHeld(s)
  {
    forall op, b: Block
      ensures Places(ListsInitialised(s), op, b)
           == (if b < PoolSize(s, op) then 1 else 0) + HeldCount(s.threads, op, b)
      ensures NothingHeld(s) ==> HeldCount(s.threads, op, b) == 0
    {
      InitPlaces(s, op, b);
      if NothingHeld(s) {
        HeldNone(s.threads, op, b);
      }
    }
    if !NothingHeld(s) {
      var t, op, b: Block :| 0 <= t < |s.threads| && Holds(s.threads[t], op, b);
      HeldMember(s.threads, t, op, b);
      assert PoolSize(ListsInitialised(s), op) == PoolSize(s, op);
      assert Places(ListsInitialised(s), op, b) != if b < PoolSize(s, op) then 1 else 0;
    }
  }
}
