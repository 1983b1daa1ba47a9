/**
 What a writer passed in is what gets committed (pdma_write in pdma-v1.1-src/pdma-dev.c): between its copy and its
 commit no other thread, interrupt or ioctl touches the memory of the block it holds.
 */
module PdmaWrites {
  import opened PdmaLists
  import opened PdmaProtocol
  import opened PdmaConservation
  import opened PdmaInvariants
  import opened PdmaTheorems

  lemma StoreApart(mem: seq<Payload>, b: Block, c: Block, data: Payload)
    requires b != c
    ensures Load(Store(mem, c, data), b) == Load(mem, b)
  {
  }

  /** The step writes the memory of another block, or of none. */
  lemma CopyInApart(s: State, step: Step, t: nat, b: Block)
    requires Reachable(s) && Legal(s, step) && Mover(step) != t && t < |s.threads| && s.threads[t] == WtFilled(b)
    ensures step.CopyIn? ==> s.threads[step.t].block != b
  {
    if step.CopyIn? && s.threads[step.t].block == b {
      HeldExclusively(s, t, step.t, Write, b);
    }
  }

  lemma MemoryKept(s: State, step: Step, b: Block)
    requires Enabled(s, step) && (step.CopyIn? ==> s.threads[step.t].block != b)
    ensures Load(Apply(s, step).wtMem, b) == Load(s.wtMem, b)
  {
    if step.CopyIn? {
      StoreApart(s.wtMem, b, s.threads[step.t].block, step.data);
    }
  }

  /** Steps of anyone else leave a filled block with its writer and its memory as it is. */
  lemma {:induction false} FilledBlockKept(s: State, steps: seq<Step>, t: nat, b: Block)
    requires Reachable(s) && ValidRun(s, steps) && t < |s.threads| && s.threads[t] == WtFilled(b)
    requires forall i | 0 <= i < |steps| :: Mover(steps[i]) != t
    ensures var q := Run(s, steps);
      Reachable(q) && t < |q.threads| && q.threads[t] == WtFilled(b) && Load(q.wtMem, b) == Load(s.wtMem, b)
    decreases |steps|
  {
    if steps != [] {
      CopyInApart(s, steps[0], t, b);
      MemoryKept(s, steps[0], b);
      StepMovesOne(s, steps[0]);
      ReachableStep(s, steps[0]);
      FilledBlockKept(Apply(s, steps[0]), steps[1..], t, b);
    }
  }

  lemma HeldInPool(s: State, t: nat, b: Block)
    requires Reachable(s) && t < |s.threads| && Holds(s.threads[t], Write, b)
    ensures b < |s.wtMem|
  {
    ReachableInv(s);
    HeldMember(s.threads, t, Write, b);
    assert Places(s, Write, b) >= 1;
  }

  lemma CopyInStores(s: State, t: nat, data: Payload)
    requires Reachable(s) && Legal(s, CopyIn(t, true, data))
    ensures var p := CopiedIn(s, t, true, data);
      p == Apply(s, CopyIn(t, true, data)) && Reachable(p)
      && t < |p.threads| && p.threads[t].WtFilled? && Load(p.wtMem, p.threads[t].block) == data
  {
    HeldInPool(s, t, s.threads[t].block);
    ReachableStep(s, CopyIn(t, true, data));
  }

  lemma CommitLogs(q: State, t: nat)
    requires t < |q.threads| && q.threads[t].WtFilled?
    ensures FinishBlock(q, t).past.committed
      == q.past.committed + if q.enable then [Load(q.wtMem, q.threads[t].block)] else []
  {
  }

  /** Whatever runs in between, the payload committed is the data the writer copied in. */
  lemma CommitsWhatWasWritten(s: State, t: nat, data: Payload, steps: seq<Step>)
    requires Reachable(s) && Legal(s, CopyIn(t, true, data)) && ValidRun(CopiedIn(s, t, true, data), steps)
    requires forall i | 0 <= i < |steps| :: Mover(steps[i]) != t
    ensures var q := Run(CopiedIn(s, t, true, data), steps);
      Enabled(q, Finish(t))
      && FinishBlock(q, t).past.committed == q.past.committed + if q.enable then [data] else []
  {
    var p := CopiedIn(s, t, true, data);
    CopyInStores(s, t, data);
    FilledBlockKept(p, steps, t, p.threads[t].block);
    CommitLogs(Run(p, steps), t);
  }
}
