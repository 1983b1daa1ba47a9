/**
 What becomes of a thread asleep with no wake_up due (pdma-v1.1-src/pdma-dev.c): whether another interrupt can still
 come for its list when nobody else takes a block and nobody stops DMA.
 */
module PdmaForgotten {
  import opened PdmaLists
  import opened PdmaProtocol
  import opened PdmaConservation
  import opened PdmaInvariants
  import opened PdmaOrder
  import opened PdmaTheorems
  import opened PdmaSleep

  /** The thread's copy failed and the block is about to go back. */
  predicate Failing(pc: Pc, op: Op, b: Block)
  {
    pc == if op == Read then RdFailed(b) else WtFailed(b)
  }

  ghost predicate SomeoneFailing(s: State, op: Op, b: Block)
  {
    exists u | 0 <= u < |s.threads| :: Failing(s.threads[u], op, b)
  }

  /** Every block of the pool is available, or about to be put back. */
  ghost predicate Settled(s: State, op: Op)
  {
    forall b: Block | b < PoolSize(s, op) :: b in Available(s, op) || SomeoneFailing(s, op, b)
  }

  lemma SettledIsNowhereElse(s: State, op: Op, b: Block)
    requires Partition(s) && Settled(s, op)
    ensures b !in SideOf(s, op).submit
    ensures b !in if op == Read then s.rd.free else s.wt.pending
    ensures forall u | 0 <= u < |s.threads| && Holds(s.threads[u], op, b) :: Failing(s.threads[u], op, b)
  {
    if Places(s, op, b) > 0 {
      if b in Available(s, op) {
        forall u | 0 <= u < |s.threads| && Holds(s.threads[u], op, b)
          ensures false
        {
          HeldIsNowhereElse(s, u, op, b);
        }
      } else {
        var v :| 0 <= v < |s.threads| && Failing(s.threads[v], op, b);
        FailingIsNowhereElse(s, op, b, v);
      }
    } else {
      forall u | 0 <= u < |s.threads| && Holds(s.threads[u], op, b)
        ensures false
      {
        HeldMember(s.threads, u, op, b);
      }
    }
  }

  lemma FailingIsNowhereElse(s: State, op: Op, b: Block, v: nat)
    requires Partition(s) && v < |s.threads| && Failing(s.threads[v], op, b)
    ensures b !in SideOf(s, op).submit && b !in SideOf(s, op).free && b !in SideOf(s, op).pending
    ensures forall u | 0 <= u < |s.threads| && Holds(s.threads[u], op, b) :: u == v
  {
    HeldIsNowhereElse(s, v, op, b);
    HeldMember(s.threads, v, op, b);
    assert Places(s, op, b) <= 1;
    forall u | 0 <= u < |s.threads| && Holds(s.threads[u], op, b)
      ensures u == v
    {
      if u != v {
        HeldTwice(s.threads, if u < v then u else v, if u < v then v else u, op, b);
      }
    }
  }

  lemma SettledLists(s: State, op: Op)
    requires Partition(s) && Settled(s, op)
    ensures SideOf(s, op).submit == [] && (op == Read ==> s.rd.free == [])
  {
    if SideOf(s, op).submit != [] {
      SettledIsNowhereElse(s, op, SideOf(s, op).submit[0]);
    }
    if op == Read && s.rd.free != [] {
      SettledIsNowhereElse(s, op, s.rd.free[0]);
    }
  }

  /** The step looks for a block in the direction. */
  predicate Tries(s: State, step: Step, op: Op)
    requires Enabled(s, step)
  {
    (step.Try? || step.Wake?) && s.threads[step.t].op == op
  }

  // ----- while every block is settled -----

  /** No interrupt completes anything in the direction. */
  lemma SettledCompletesNothing(s: State, step: Step, op: Op)
    requires Partition(s) && Settled(s, op) && Enabled(s, step)
    ensures !Completes(s, step, op)
  {
    SettledLists(s, op);
  }

  lemma SettledSteady(s: State, q: State, op: Op)
    requires Settled(s, op) && PoolSize(q, op) == PoolSize(s, op) && Available(q, op) == Available(s, op)
    requires |q.threads| == |s.threads|
    requires forall u, b: Block | 0 <= u < |s.threads| && Failing(s.threads[u], op, b) :: Failing(q.threads[u], op, b)
    ensures Settled(q, op)
  {
    forall b: Block | b < PoolSize(q, op) && b !in Available(q, op)
      ensures SomeoneFailing(q, op, b)
    {
      var u :| 0 <= u < |s.threads| && Failing(s.threads[u], op, b);
      assert Failing(q.threads[u], op, b);
    }
  }

  lemma PutBackKeepsSettled(s: State, t: nat, op: Op, b: Block)
    requires Settled(s, op) && Enabled(s, Finish(t)) && PutsBack(s, Finish(t), op) && b == s.threads[t].block
    ensures Settled(FinishBlock(s, t), op)
  {
    var q := FinishBlock(s, t);
    assert Available(q, op) == [b] + Available(s, op);
    forall c: Block | c < PoolSize(q, op) && c !in Available(q, op)
      ensures SomeoneFailing(q, op, c)
    {
      assert c != b;
      assert c !in Available(s, op);
      var u :| 0 <= u < |s.threads| && Failing(s.threads[u], op, c);
      assert u != t && Failing(q.threads[u], op, c);
    }
  }

  lemma FinishKeepsSettled(s: State, t: nat, op: Op)
    requires Partition(s) && Settled(s, op) && Enabled(s, Finish(t))
    ensures Settled(FinishBlock(s, t), op)
  {
    var q, pc := FinishBlock(s, t), s.threads[t];
    if PutsBack(s, Finish(t), op) {
      PutBackKeepsSettled(s, t, op, pc.block);
    } else {
      SettledIsNowhereElse(s, op, pc.block);
      SettledSteady(s, q, op);
    }
  }

  lemma InterruptKeepsSettled(s: State, rdData: seq<Payload>, wtCnt: nat, op: Op)
    requires Partition(s) && Settled(s, op) && |rdData| <= |s.rd.submit| && wtCnt <= |s.wt.submit|
    ensures Settled(Interrupted(s, rdData, wtCnt), op)
  {
    SettledLists(s, op);
    SettledSteady(s, Interrupted(s, rdData, wtCnt), op);
  }

  lemma TakeKeepsSettled(s: State, t: nat, op: Op, nonblock: bool, side: Op)
    requires Settled(s, side) && t < |s.threads| && op != side && (s.threads[t].Checked? || s.threads[t].Waiting?)
    ensures Settled(TakeOrWait(s, t, op, nonblock), side)
  {
    SettledSteady(s, TakeOrWait(s, t, op, nonblock), side);
  }

  lemma RefillKeepsSettled(s: State, op: Op)
    requires Settled(s, op)
    ensures Settled(Refilled(s), op)
  {
    RdRefillMoves(s.rd);
    SettledSteady(s, Refilled(s), op);
  }

  /** As long as nobody tries for a block in the direction and the lists are not initialised, settled stays settled. */
  lemma StepKeepsSettled(s: State, step: Step, op: Op)
    requires Partition(s) && Settled(s, op) && Enabled(s, step) && step != InitLists && !Tries(s, step, op)
    ensures Settled(Apply(s, step), op)
  {
    match step
    case Finish(t) => FinishKeepsSettled(s, t, op);
    case Interrupt(rdData, wtCnt) =>
      if s.enable {
        InterruptKeepsSettled(s, rdData, wtCnt, op);
      }
    case Try(t, nonblock) => TakeKeepsSettled(s, t, s.threads[t].op, nonblock, op);
    case Wake(t, signalled) =>
      if signalled || !s.enable {
        SettledSteady(s, Apply(s, step), op);
      } else {
        TakeKeepsSettled(s, t, s.threads[t].op, false, op);
      }
    case Refill(t) =>
      RefillKeepsSettled(s, op);
      SettledSteady(Refilled(s), Apply(s, step), op);
    case StartRefill =>
      RefillKeepsSettled(s, op);
      SettledSteady(Refilled(s), Apply(s, step), op);
    case CopyIn(_, _, _) => SettledSteady(s, Apply(s, step), op);
    case CopyOut(_, _) => SettledSteady(s, Apply(s, step), op);
    case _ => PlainKeepsSettled(s, step, op);
  }

  lemma PlainKeepsSettled(s: State, step: Step, op: Op)
    requires Settled(s, op) && Enabled(s, step) && step != InitLists
    requires !step.Finish? && !step.Interrupt? && !step.Try? && !step.Wake? && !step.Refill? && !step.StartRefill?
    ensures Settled(Apply(s, step), op)
  {
    SettledSteady(s, Apply(s, step), op);
  }

  // ----- a sleeper without outside help -----

  /** A signal for the sleeper, somebody trying for a block, or a stop. */
  predicate Disturbs(n: Night, m: Move, t: nat, op: Op)
    requires Can(n, m)
  {
    m == Signal(t) || (m.Go? && (m.step == StopBegin || m.step == StartBegin || Tries(n.base, m.step, op)))
  }

  ghost predicate Undisturbed(n0: Night, moves: seq<Move>, t: nat, op: Op, n: Night)
    decreases |moves|
  {
    if moves == [] then n == n0
    else Can(n0, moves[0]) && !Disturbs(n0, moves[0], t, op) && Undisturbed(Do(n0, moves[0]), moves[1..], t, op, n)
  }

  /** DMA is on, the thread sleeps on the list, and no wake_up is due. */
  ghost predicate Sleeping(n: Night, t: nat, op: Op)
  {
    n.base.enable && t in SleepersOf(n, op) && !WakeDue(n, op)
  }

  lemma MoveStaysAsleep(n: Night, m: Move, t: nat, op: Op)
    requires Inv(n.base) && SleepersWait(n) && Sleeping(n, t, op) && Settled(n.base, op)
    requires Can(n, m) && !Disturbs(n, m, t, op)
    ensures SleepersWait(Do(n, m)) && Sleeping(Do(n, m), t, op) && Settled(Do(n, m).base, op)
  {
    match m
    case Go(step) =>
      SleepersStay(n, step);
      SameSleepers(n, step, op);
      SettledCompletesNothing(n.base, step, op);
      StepKeepsSettled(n.base, step, op);
      StaysEnabled(n.base, step);
    case _ =>
  }

  lemma StaysEnabled(s: State, step: Step)
    requires Quiesced(s) && s.enable && Enabled(s, step) && step != StopBegin && step != StartBegin
    ensures Apply(s, step).enable && step != InitLists
  {
  }

  lemma {:induction false} UndisturbedStaysAsleep(n0: Night, moves: seq<Move>, t: nat, op: Op, n: Night)
    requires Inv(n0.base) && SleepersWait(n0) && Sleeping(n0, t, op) && Settled(n0.base, op)
    requires Undisturbed(n0, moves, t, op, n)
    ensures Sleeping(n, t, op) && Settled(n.base, op)
    decreases |moves|
  {
    if moves != [] {
      MoveStaysAsleep(n0, moves[0], t, op);
      if moves[0].Go? {
        StepKeepsInv(n0.base, moves[0].step);
      }
      UndisturbedStaysAsleep(Do(n0, moves[0]), moves[1..], t, op, n);
    }
  }

  // ----- when a block is not settled -----

  /** A wake_up for the direction can come about without outside help. */
  ghost predicate HelpComes(n: Night, t: nat, op: Op)
  {
    exists moves, q :: Undisturbed(n, moves, t, op, q) && WakeDue(q, op)
  }

  lemma HelpComesAfter(n: Night, step: Step, t: nat, op: Op)
    requires Can(n, Go(step)) && !Disturbs(n, Go(step), t, op) && HelpComes(Pass(n, step), t, op)
    ensures HelpComes(n, t, op)
  {
    var moves, q :| Undisturbed(Pass(n, step), moves, t, op, q) && WakeDue(q, op);
    assert ([Go(step)] + moves)[1..] == moves;
    assert Undisturbed(n, [Go(step)] + moves, t, op, q);
  }

  lemma HelpFromSubmit(n: Night, t: nat, op: Op)
    requires n.base.enable && SideOf(n.base, op).submit != []
    ensures HelpComes(n, t, op)
  {
    var step := if op == Read then Interrupt([[]], 0) else Interrupt([], 1);
    assert Can(n, Go(step)) && !Disturbs(n, Go(step), t, op);
    assert WakeDue(Pass(n, step), op);
    assert Undisturbed(Pass(n, step), [], t, op, Pass(n, step));
    HelpComesAfter(n, step, t, op);
  }

  lemma RefillSubmits(s: State)
    requires Counted(s) && s.enable && s.rd.submit == [] && s.rd.free != []
    ensures Refilled(s).rd.submit != []
  {
    RdRefillMoves(s.rd);
  }

  lemma HelpFromFree(n: Night, t: nat)
    requires Inv(n.base) && n.base.enable && n.base.rd.free != []
    ensures HelpComes(n, t, Read)
  {
    var s := n.base;
    if s.rd.submit != [] {
      HelpFromSubmit(n, t, Read);
    } else {
      RefillSubmits(s);
      var step := StartRefill;
      if s.control != Started {
        var u :| 0 <= u < |s.threads| && s.threads[u] == RdRefilling;
        step := Refill(u);
      }
      HelpFromSubmit(Pass(n, step), t, Read);
      HelpComesAfter(n, step, t, Read);
    }
  }

  lemma HelpFromCopied(n: Night, t: nat, u: nat)
    requires Inv(n.base) && n.base.enable && u < |n.base.threads| && n.base.threads[u].RdCopied?
    ensures HelpComes(n, t, Read)
  {
    StepKeepsInv(n.base, Finish(u));
    HelpFromFree(Pass(n, Finish(u)), t);
    HelpComesAfter(n, Finish(u), t, Read);
  }

  lemma HelpFromReader(n: Night, t: nat, u: nat)
    requires Inv(n.base) && n.base.enable && u < |n.base.threads| && n.base.threads[u].RdHeld?
    ensures HelpComes(n, t, Read)
  {
    StepKeepsInv(n.base, CopyOut(u, true));
    HelpFromCopied(Pass(n, CopyOut(u, true)), t, u);
    HelpComesAfter(n, CopyOut(u, true), t, Read);
  }

  lemma HelpFromFilled(n: Night, t: nat, u: nat)
    requires Inv(n.base) && n.base.enable && u < |n.base.threads| && n.base.threads[u].WtFilled?
    ensures HelpComes(n, t, Write)
  {
    assert Apply(n.base, Finish(u)).wt.submit != [];
    HelpFromSubmit(Pass(n, Finish(u)), t, Write);
    HelpComesAfter(n, Finish(u), t, Write);
  }

  lemma HelpFromWriter(n: Night, t: nat, u: nat)
    requires Inv(n.base) && n.base.enable && u < |n.base.threads| && n.base.threads[u].WtHeld?
    ensures HelpComes(n, t, Write)
  {
    StepKeepsInv(n.base, CopyIn(u, true, []));
    HelpFromFilled(Pass(n, CopyIn(u, true, [])), t, u);
    HelpComesAfter(n, CopyIn(u, true, []), t, Write);
  }

  lemma HelpFromHolder(n: Night, t: nat, u: nat, op: Op, b: Block)
    requires Inv(n.base) && n.base.enable && u < |n.base.threads|
    requires Holds(n.base.threads[u], op, b) && !Failing(n.base.threads[u], op, b)
    ensures HelpComes(n, t, op)
  {
    match n.base.threads[u]
    case RdHeld(_) => HelpFromReader(n, t, u);
    case RdCopied(_) => HelpFromCopied(n, t, u);
    case WtHeld(_) => HelpFromWriter(n, t, u);
    case WtFilled(_) => HelpFromFilled(n, t, u);
    case _ =>
  }

  lemma UnsettledHelps(n: Night, t: nat, op: Op)
    requires Inv(n.base) && n.base.enable && !Settled(n.base, op)
    ensures HelpComes(n, t, op)
  {
    var s := n.base;
    var b: Block :| b < PoolSize(s, op) && b !in Available(s, op) && !SomeoneFailing(s, op, b);
    assert Places(s, op, b) == 1;
    if HeldCount(s.threads, op, b) > 0 {
      var u := HeldSome(s.threads, op, b);
      HelpFromHolder(n, t, u, op, b);
    } else if SideOf(s, op).submit != [] {
      HelpFromSubmit(n, t, op);
    } else {
      assert op == Read ==> b in s.rd.free;
      assert op == Write ==> b in s.wt.pending;
      HelpFromFree(n, t);
    }
  }

  /**
   A thread asleep with no wake_up due can still be woken without outside help exactly when some block of its pool is
   neither available nor about to be put back after a failed copy.
   */
  lemma ForgottenIff(n: Night, t: nat, op: Op)
    requires Possible(n) && Sleeping(n, t, op)
    ensures HelpComes(n, t, op) <==> !Settled(n.base, op)
  {
    PossibleRestful(n);
    ReachableInv(n.base);
    if Settled(n.base, op) {
      forall moves, q | Undisturbed(n, moves, t, op, q)
        ensures !WakeDue(q, op)
      {
        UndisturbedStaysAsleep(n, moves, t, op, q);
      }
    } else {
      UnsettledHelps(n, t, op);
    }
  }

  /** And as long as there is no outside help it stays asleep. */
  lemma StaysForgotten(n: Night, moves: seq<Move>, t: nat, op: Op, q: Night)
    requires Possible(n) && Sleeping(n, t, op) && Settled(n.base, op) && Undisturbed(n, moves, t, op, q)
    ensures Sleeping(q, t, op) && Settled(q.base, op)
  {
    PossibleRestful(n);
    ReachableInv(n.base);
    UndisturbedStaysAsleep(n, moves, t, op, q);
  }

  // ----- a reader left asleep -----

  /** DMA on, a pool of one read block, two threads, nobody asleep and no wake_up due. */
  predicate Scene(n: Night, p0: Pc, p1: Pc, submit: seq<Block>, pending: seq<Block>)
  {
    var s := n.base;
    && s.enable && s.threads == [p0, p1] && s.rdNr == 1 && n.asleep == {} && !n.rdWake
    && s.rd.submit == submit && s.rd.submitCnt == |submit| && s.rd.pending == pending && s.rd.free == []
  }

  lemma SceneStarting() returns (n: Night)
    ensures Possible(n) && n == Night(Initial([[]], [[]], 2).(control := Starting), {}, false, false, false, false)
  {
    n := Evening([[]], [[]], 2);
    assert Arises(n, [], n);
    PossibleThen(n, Go(StartBegin));
    n := Do(n, Go(StartBegin));
  }

  lemma SceneInitialised() returns (n: Night)
    ensures Possible(n) && n.asleep == {} && !n.rdWake && n.base.enable && n.base.control == Started
    ensures n.base.threads == [Idle, Idle] && n.base.rdNr == 1 && n.base.rd == FreshSide(1)
  {
    n := SceneStarting();
    PossibleThen(n, Go(InitLists));
    n := Do(n, Go(InitLists));
  }

  lemma OneBlockRefilled()
    ensures var r := RdRefill(FreshSide(1));
      r.submit == [0] && r.submitCnt == 1 && r.pending == [] && r.free == []
  {
    RdRefillMoves(FreshSide(1));
    assert FreshSide(1).free[..1] == [0];
  }

  lemma StartRefillScene(n: Night)
    requires n.asleep == {} && !n.rdWake && n.base.enable && n.base.control == Started
    requires n.base.threads == [Idle, Idle] && n.base.rdNr == 1 && n.base.rd == FreshSide(1)
    ensures Can(n, Go(StartRefill)) && Scene(Pass(n, StartRefill), Idle, Idle, [0], [])
  {
    OneBlockRefilled();
  }

  lemma SceneStarted() returns (n: Night)
    ensures Possible(n) && Scene(n, Idle, Idle, [0], [])
  {
    n := SceneInitialised();
    StartRefillScene(n);
    PossibleThen(n, Go(StartRefill));
    n := Pass(n, StartRefill);
  }

  /** A thread enters and passes its tests. */
  lemma SceneEnters(n: Night, t: nat, p0: Pc, p1: Pc, submit: seq<Block>, pending: seq<Block>) returns (q: Night)
    requires Possible(n) && Scene(n, p0, p1, submit, pending) && t < 2 && [p0, p1][t] == Idle
    ensures Possible(q)
    ensures Scene(q, if t == 0 then Checked(Read) else p0, if t == 1 then Checked(Read) else p1, submit, pending)
  {
    PossibleThen(n, Go(Enter(t, Read)));
    q := Do(n, Go(Enter(t, Read)));
    assert q.base.threads == [p0, p1][t := Entered(Read)];
    PossibleThen(q, Go(Check(t, true)));
    q := Do(q, Go(Check(t, true)));
  }

  lemma OneBlockCompleted(r: Side)
    requires r.submit == [0] && r.submitCnt == 1 && r.pending == [] && r.free == []
    ensures var q := RdInterrupt(r, 1);
      q.submit == [] && q.submitCnt == 0 && q.pending == [0] && q.free == []
  {
    var m := RdInterruptMoves(r, 1);
    assert r.submit[..1] == [0];
  }

  lemma SceneInterrupted(n: Night, p0: Pc, p1: Pc) returns (q: Night)
    requires Possible(n) && Scene(n, p0, p1, [0], [])
    ensures Possible(q) && Scene(q.(rdWake := false), p0, p1, [], [0]) && q.rdWake
  {
    OneBlockCompleted(n.base.rd);
    var step := Interrupt([[]], 0);
    PossibleThen(n, Go(step));
    q := Do(n, Go(step));
  }

  lemma SceneCompletes(n: Night, p0: Pc, p1: Pc) returns (q: Night)
    requires Possible(n) && Scene(n, p0, p1, [0], [])
    ensures Possible(q) && Scene(q, p0, p1, [], [0])
  {
    q := SceneInterrupted(n, p0, p1);
    PossibleThen(q, WakeReaders);
    q := Do(q, WakeReaders);
  }

  lemma SceneTakes(n: Night, p1: Pc) returns (q: Night)
    requires Possible(n) && Scene(n, Checked(Read), p1, [], [0])
    ensures Possible(q) && Scene(q, RdHeld(0), p1, [], [])
  {
    PossibleThen(n, Go(Try(0, false)));
    q := Do(n, Go(Try(0, false)));
  }

  lemma SceneSleeps(n: Night) returns (q: Night)
    requires Possible(n) && Scene(n, RdHeld(0), Checked(Read), [], [])
    ensures Possible(q) && Scene(q.(asleep := {}), RdHeld(0), Waiting(Read), [], []) && q.asleep == {1}
  {
    PossibleThen(n, Go(Try(1, false)));
    q := Do(n, Go(Try(1, false)));
    assert q.base.threads == [RdHeld(0), Waiting(Read)];
    PossibleThen(q, Doze(1));
    q := Do(q, Doze(1));
  }

  lemma SceneCopyFails(n: Night) returns (q: Night)
    requires Possible(n) && Scene(n.(asleep := {}), RdHeld(0), Waiting(Read), [], []) && n.asleep == {1}
    ensures Possible(q) && Scene(q.(asleep := {}), RdFailed(0), Waiting(Read), [], []) && q.asleep == {1}
  {
    PossibleThen(n, Go(CopyOut(0, false)));
    q := Do(n, Go(CopyOut(0, false)));
  }

  lemma FinishScene(n: Night)
    requires Scene(n.(asleep := {}), RdFailed(0), Waiting(Read), [], [])
    ensures Can(n, Go(Finish(0))) && Scene(Pass(n, Finish(0)).(asleep := {}), Leaving, Waiting(Read), [], [0])
  {
  }

  lemma SceneFails(n: Night) returns (q: Night)
    requires Possible(n) && Scene(n.(asleep := {}), RdHeld(0), Waiting(Read), [], []) && n.asleep == {1}
    ensures Possible(q) && Scene(q.(asleep := {}), Leaving, Waiting(Read), [], [0]) && q.asleep == {1}
  {
    var p := SceneCopyFails(n);
    FinishScene(p);
    PossibleThen(p, Go(Finish(0)));
    q := Pass(p, Finish(0));
  }

  lemma NothingMoves(n: Night)
    requires Scene(n.(asleep := {}), Leaving, Waiting(Read), [], [0]) && n.asleep == {1}
    ensures 1 in SleepersOf(n, Read) && Settled(n.base, Read)
  {
  }

  /** It does happen: with one block, a reader goes to sleep, another one's copy fails, and nobody wakes the first. */
  lemma ReaderForgotten() returns (n: Night)
    ensures Possible(n) && n.base.enable && 1 in SleepersOf(n, Read) && Available(n.base, Read) != []
    ensures !WakeDue(n, Read) && Settled(n.base, Read)
  {
    n := SceneStarted();
    n := SceneEnters(n, 0, Idle, Idle, [0], []);
    n := SceneCompletes(n, Checked(Read), Idle);
    n := SceneTakes(n, Idle);
    n := SceneEnters(n, 1, RdHeld(0), Idle, [], []);
    n := SceneSleeps(n);
    n := SceneFails(n);
    NothingMoves(n);
  }
}
