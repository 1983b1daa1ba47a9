/**
 One undisturbed pass of the service loop over a shared ring (__do_char_io_op in
 ire/backup_con/dom0_141223_blocksz/data.c), with requests and responses in the same array. XenBackend
 interleaves the passes with the frontend.
 */
module XenLoop {
  import opened Words
  import opened XenRing
  import opened XenBackend
  import opened XenService
  import opened XenPromises
  import opened RingPass

  /** The free list of pending requests: no entry is on it twice. */
  class Pool {
    const size: nat
    var free: seq<nat>

    ghost predicate Valid()
      reads this
    {
      && (forall i | 0 <= i < |free| :: free[i] < size)
      && (forall i, j | 0 <= i < j < |free| :: free[i] != free[j])
    }

    constructor (n: nat)
      ensures Valid() && size == n && free == seq(n, i => i)
    {
      size := n;
      free := seq(n, i => i);
    }

    /** alloc_req: the head of the free list, which nobody else can then be given; nothing only from an empty list. */
    method Alloc() returns (ok: bool, req: nat)
      requires Valid()
      modifies this
      ensures Valid() && (ok <==> old(free) != [])
      ensures ok ==> req < size && req !in free
      ensures old(free) == if ok then [req] + free else free
    {
      ok, req := free != [], 0;
      if ok {
        req := free[0];
        free := free[1..];
      }
    }

    /** free_req: the entry can be given out again, first; waiting threads are woken if there was none. */
    method Free(req: nat) returns (wake: bool)
      requires Valid() && req < size && req !in free
      modifies this
      ensures Valid() && free == [req] + old(free)
      ensures wake <==> old(free) == []
    {
      wake := free == [];
      free := [req] + free;
    }
  }

  class Ring {
    const slots: array<Slot>
    const commands: array<Command>    // the ioctl command of the request in each slot
    var reqProd: Word
    var rspProd: Word
    var rspEvent: Word
    var reqCons: Word
    var rspPvt: Word
    ghost var consumed: nat
    ghost var answered: nat
    ghost var published: nat

    ghost predicate Valid()
      reads this
    {
      && RingSize(slots.Length) && commands.Length == slots.Length
      && reqProd == Wrap(published) && reqCons == Wrap(consumed) && rspPvt == rspProd == Wrap(answered)
      && answered <= consumed <= published <= answered + slots.Length
    }

    constructor (slots: array<Slot>, commands: array<Command>)
      requires RingSize(slots.Length) && commands.Length == slots.Length
      ensures Valid() && published == 0
      ensures this.slots == slots && this.commands == commands
    {
      this.slots, this.commands := slots, commands;
      reqProd, rspProd, rspEvent, reqCons, rspPvt := 0, 0, 1, 0, 0;
      consumed, answered, published := 0, 0, 0;
    }

    /** RING_GET_REQUEST and the increment of req_cons. */
    method Consume() returns (at: nat)
      requires Valid() && consumed == answered < published
      modifies this`reqCons, this`consumed
      ensures Valid() && consumed == old(consumed) + 1
      ensures at == SlotOf(old(consumed), slots.Length)
    {
      WrapKeepsSlot(consumed, slots.Length);
      IncWraps(consumed);
      at := SlotOf(reqCons, slots.Length);
      reqCons := Inc(reqCons);
      consumed := consumed + 1;
    }

    /** make_response: the response overwrites the slot of the request it answers. */
    method MakeResponse(at: nat) returns (notify: bool)
      requires Valid() && answered < consumed && at == SlotOf(answered, slots.Length)
      modifies this`rspProd, this`rspPvt, this`answered, slots
      ensures Valid() && answered == old(answered) + 1
      ensures slots[..] == old(slots[..])[at := Response(old(slots[at]))]
      ensures notify <==> MustNotify(old(rspProd), rspProd, rspEvent)
    {
      WrapKeepsSlot(answered, slots.Length);
      IncWraps(answered);
      var response := Response(slots[at]);
      slots[SlotOf(rspPvt, slots.Length)] := response;
      rspPvt := Inc(rspPvt);
      var before := rspProd;
      rspProd := rspPvt;
      notify := MustNotify(before, rspProd, rspEvent);
      answered := answered + 1;
    }
  }

  // ----- what a pass computes -----

  /** A response keeps id and operation, and its status tells success from failure. */
  lemma ResponseMeaning(request: Slot, failed: bool)
    ensures var response := Response(Executed(request, failed));
      && response.id == request.id && response.operation == request.operation
      && response.status == if failed then request.status else Inc(request.status)
  {
    StatusRestored(request.status);
  }

  function Min(a: nat, b: nat): nat
  {
    if a < b then a else b
  }

  /** How many requests a pass serves: none without a free pending_req, all at hand unless told to stop. */
  function Share(pending: nat, pool: seq<nat>, stopAfter: nat): nat
  {
    if pool == [] then 0 else Min(pending, stopAfter)
  }

  /** What a pass works on: whose requests, their ioctl commands, where they start, and the device's answers. */
  datatype Batch = Batch(front: nat, commands: seq<Command>, first: nat, errors: nat -> bool)

  /** What the k-th request asks for. */
  function Ask(b: Batch, k: nat, request: Slot): Handled
    requires b.commands != []
  {
    Handled(b.front, request.operation, b.commands[SlotOf(b.first + k, |b.commands|)])
  }

  /** Whether it fails with the device as it then is. */
  function AskFails(b: Batch, k: nat, request: Slot, counts: Counts): bool
    requires b.commands != []
  {
    Outcome(counts.dmaCnt, Ask(b, k, request), b.errors(k))
  }

  /** Executing one request and answering it. */
  function Server(b: Batch): Producer<Slot, Counts>
    requires b.commands != []
  {
    (k: nat, request: Slot, counts: Counts) =>
      (Response(Executed(request, AskFails(b, k, request, counts))), Handle(counts, Ask(b, k, request)))
  }

  /** The pass after n requests. */
  function Served(b: Batch, slots: seq<Slot>, counts: Counts, n: nat): (p: Pass<Slot, Counts>)
    requires 0 < |slots| == |b.commands|
    ensures |p.slots| == |slots|
  {
    After(Server(b), b.first, Pass(slots, counts), n)
  }

  /** The slot of each request served holds its response, and the device has executed that request. */
  lemma ServedInPlace(b: Batch, slots: seq<Slot>, counts: Counts, n: nat, k: nat)
    requires k < n <= |slots| == |b.commands|
    ensures var at, before := SlotOf(b.first + k, |slots|), Served(b, slots, counts, k).context;
      && Served(b, slots, counts, n).slots[at] == Response(Executed(slots[at], AskFails(b, k, slots[at], before)))
      && Served(b, slots, counts, k + 1).context == Handle(before, Ask(b, k, slots[at]))
  {
    ProducedInPlace(Server(b), b.first, Pass(slots, counts), n, k);
  }

  /** Slots of requests not served, and of responses not yet read, are untouched. */
  lemma ServedLeavesRest(b: Batch, slots: seq<Slot>, counts: Counts, n: nat, k: nat)
    requires n <= k < |slots| == |b.commands|
    ensures var at := SlotOf(b.first + k, |slots|);
      Served(b, slots, counts, n).slots[at] == slots[at]
  {
    RestKept(Server(b), b.first, Pass(slots, counts), n, k);
  }

  /** The requests of a batch as the frontend wrote them. */
  function Asks(b: Batch, slots: seq<Slot>): nat -> Handled
    requires 0 < |slots| == |b.commands|
  {
    (k: nat) => Ask(b, k, slots[SlotOf(b.first + k, |slots|)])
  }

  lemma ServedNext(b: Batch, slots: seq<Slot>, counts: Counts, k: nat)
    requires k < |slots| == |b.commands|
    ensures Served(b, slots, counts, k + 1).context == Handle(Served(b, slots, counts, k).context, Asks(b, slots)(k))
  {
    ServedInPlace(b, slots, counts, k + 1, k);
  }

  lemma ServedHistory(b: Batch, slots: seq<Slot>, counts: Counts, n: nat) returns (history: nat -> Counts)
    requires n <= |slots| == |b.commands| && 0 < |slots|
    ensures forall k: nat | k < n :: HandledAt(history, Asks(b, slots), k)
    ensures history(0) == counts && history(n) == Served(b, slots, counts, n).context
  {
    history := (k: nat) => Served(b, slots, counts, k).context;
    forall k: nat | k < n
      ensures HandledAt(history, Asks(b, slots), k)
    {
      ServedNext(b, slots, counts, k);
    }
  }

  /**
   A pass executes exactly the requests it serves, in order and as the frontend wrote them; counts and device
   calls that agreed with the log before it agree afterwards.
   */
  lemma ServedConsistent(b: Batch, slots: seq<Slot>, counts: Counts, n: nat)
    requires n <= |slots| == |b.commands| && 0 < |slots| && Consistent(counts)
    ensures Consistent(Served(b, slots, counts, n).context)
    ensures Served(b, slots, counts, n).context.log == counts.log + First(Asks(b, slots), n)
  {
    var history := ServedHistory(b, slots, counts, n);
    HistoryConsistent(history, Asks(b, slots), n);
  }

  /** Ring and device are where the pass is. */
  ghost predicate Stands(b: Batch, k: nat, p: Pass<Slot, Counts>, ring: Ring, dev: Device)
    reads ring, ring.slots, ring.commands, dev
  {
    && b.commands == ring.commands[..] && ring.slots[..] == p.slots && dev.Contents() == p.context
    && ring.consumed == ring.answered == b.first + k
  }

  ghost function BatchOf(front: nat, ring: Ring, errors: nat -> bool): Batch
    reads ring, ring.commands
  {
    Batch(front, ring.commands[..], ring.consumed, errors)
  }

  /** Lock-step indices: the overflow guard is false, and unequal indices mean a request to serve. */
  lemma GuardFalse(ring: Ring)
    requires ring.Valid() && ring.consumed == ring.answered
    ensures !Overflow(ring.reqCons, ring.rspPvt, ring.slots.Length)
    ensures ring.reqCons != ring.reqProd <==> ring.consumed < ring.published
  {
    MinusExact(ring.consumed, ring.answered);
    if ring.reqCons == ring.reqProd {
      WrapInjective(ring.consumed, ring.published);
    }
  }

  /** The loop body proper: consume a request, execute it, answer it. */
  method Serve(ring: Ring, pool: Pool, dev: Device, req: nat, front: nat, error: bool,
      ghost b: Batch, ghost k: nat, ghost p: Pass<Slot, Counts>)
    requires ring.Valid() && ring.consumed < ring.published
    requires pool.Valid() && req < pool.size && req !in pool.free
    requires Stands(b, k, p, ring, dev) && b.front == front && b.errors(k) == error
    modifies ring, ring.slots, pool, dev
    ensures ring.Valid() && ring.published == old(ring.published) && ring.reqProd == old(ring.reqProd)
    ensures pool.Valid() && pool.free == [req] + old(pool.free)
    ensures Stands(b, k + 1, Next(Server(b), b.first, p, k), ring, dev)
  {
    var at := ring.Consume();
    var h := Handled(front, ring.slots[at].operation, ring.commands[at]);
    var failed := dev.Execute(h, error);
    ring.slots[at] := Executed(ring.slots[at], failed);
    var wake := pool.Free(req);
    var notify := ring.MakeResponse(at);
  }

  ghost predicate StepAt(b: Batch, spec: nat -> Pass<Slot, Counts>, k: nat)
    requires b.commands != []
  {
    spec(k).slots != [] && spec(k + 1) == Next(Server(b), b.first, spec(k), k)
  }

  /** Between requests: the indices are in lock-step and the pass has served n requests of the batch. */
  ghost predicate Between(b: Batch, n: nat, p: Pass<Slot, Counts>, ring: Ring, dev: Device)
    reads ring, ring.slots, ring.commands, dev
  {
    && ring.Valid() && !Overflow(ring.reqCons, ring.rspPvt, ring.slots.Length)
    && (ring.reqCons != ring.reqProd <==> ring.consumed < ring.published)
    && Stands(b, n, p, ring, dev)
  }

  /** Serve one request of the batch. */
  method ServeNext(ring: Ring, pool: Pool, dev: Device, req: nat, front: nat, error: bool,
      ghost b: Batch, ghost spec: nat -> Pass<Slot, Counts>, ghost k: nat)
    requires b.commands != [] && (forall i: nat :: StepAt(b, spec, i))
    requires pool.Valid() && req < pool.size && req !in pool.free
    requires Between(b, k, spec(k), ring, dev) && ring.reqCons != ring.reqProd
    requires b.front == front && b.errors(k) == error
    modifies ring, ring.slots, pool, dev
    ensures Between(b, k + 1, spec(k + 1), ring, dev)
    ensures pool.Valid() && pool.free == [req] + old(pool.free)
    ensures ring.published == old(ring.published) && ring.reqProd == old(ring.reqProd)
  {
    Serve(ring, pool, dev, req, front, error, b, k, spec(k));
    assert StepAt(b, spec, k);
    GuardFalse(ring);
  }

  /** The loop, over any sequence of passes in which each is one request further than the one before. */
  method Loop(ring: Ring, pool: Pool, dev: Device, front: nat, stopAfter: nat, errors: nat -> bool,
      ghost b: Batch, ghost spec: nat -> Pass<Slot, Counts>)
    returns (more: bool, served: nat)
    requires b == BatchOf(front, ring, errors) && b.commands != [] && (forall i: nat :: StepAt(b, spec, i))
    requires Between(b, 0, spec(0), ring, dev) && pool.Valid()
    modifies ring, ring.slots, pool, dev
    ensures Between(b, served, spec(served), ring, dev)
    ensures ring.published == old(ring.published) && pool.Valid() && pool.free == old(pool.free)
    ensures served == Share(ring.published - old(ring.consumed), pool.free, stopAfter)
    ensures more <==> ring.consumed < ring.published
    ensures ring.consumed == old(ring.consumed) + served && served <= stopAfter
    ensures pool.free == [] ==> served == 0
    ensures more ==> pool.free == [] || served == stopAfter
    ensures !more ==> ring.consumed == ring.published
  {
    more, served := false, 0;
    var goal := ring.reqProd;
    while ring.reqCons != goal
      invariant Between(b, served, spec(served), ring, dev) && pool.Valid()
      invariant ring.published == old(ring.published) && goal == ring.reqProd && pool.free == old(pool.free) && !more
      invariant served <= Share(ring.published - b.first, pool.free, stopAfter)
      decreases ring.published - ring.consumed
    {
      if Overflow(ring.reqCons, ring.rspPvt, ring.slots.Length) {
        assert false;
      }
      if served >= stopAfter {
        more := true;
        break;
      }
      var ok, req := pool.Alloc();
      if !ok {
        more := true;
        break;
      }
      ServeNext(ring, pool, dev, req, front, errors(served), b, spec, served);
      served := served + 1;
    }
  }

  lemma ServedSteps(b: Batch, slots: seq<Slot>, counts: Counts) returns (spec: nat -> Pass<Slot, Counts>)
    requires 0 < |slots| == |b.commands|
    ensures forall k: nat :: spec(k) == Served(b, slots, counts, k)
    ensures forall k: nat :: StepAt(b, spec, k)
  {
    spec := (k: nat) => Served(b, slots, counts, k);
    forall k: nat
      ensures StepAt(b, spec, k)
    {
    }
  }

  /** What a frontend sees of a request that was answered in place. */
  predicate AnsweredInPlace(request: Slot, response: Slot)
  {
    && response.id == request.id && response.operation == request.operation
    && (response.status == request.status || response.status == Inc(request.status))
    && (request.operation in {OP_OPEN, OP_WRITE, OP_CLOSE} ==> response.status == Inc(request.status))
    && (request.operation !in {OP_OPEN, OP_WRITE, OP_IOCTL, OP_CLOSE} ==> response.status == request.status)
  }

  /** The slot of the k-th request from the first of a batch, before and after n were served. */
  predicate SlotSeen(first: nat, before: seq<Slot>, after: seq<Slot>, n: nat, k: nat)
    requires 0 < |before| == |after|
  {
    var at := SlotOf(first + k, |before|);
    if k < n then AnsweredInPlace(before[at], after[at]) else after[at] == before[at]
  }

  ghost predicate SlotsSeen(first: nat, before: seq<Slot>, after: seq<Slot>, n: nat)
    requires 0 < |before| == |after|
  {
    forall k: nat | k < |before| :: SlotSeen(first, before, after, n, k)
  }

  /** The k-th request executed, as the frontend wrote it. */
  predicate LogSeen(b: Batch, before: seq<Slot>, logged: seq<Handled>, k: nat)
    requires 0 < |before| == |b.commands| && k < |logged|
  {
    var at := SlotOf(b.first + k, |before|);
    logged[k] == Handled(b.front, before[at].operation, b.commands[at])
  }

  ghost predicate LogGrew(b: Batch, before: seq<Slot>, log: seq<Handled>, logged: seq<Handled>, n: nat)
    requires 0 < |before| == |b.commands|
  {
    && |logged| == |log| + n && log <= logged
    && forall k: nat | k < n :: LogSeen(b, before, logged[|log|..], k)
  }

  lemma ServedSlots(b: Batch, slots: seq<Slot>, counts: Counts, n: nat)
    requires n <= |slots| == |b.commands| && 0 < |slots|
    ensures SlotsSeen(b.first, slots, Served(b, slots, counts, n).slots, n)
  {
    forall k: nat | k < |slots|
      ensures SlotSeen(b.first, slots, Served(b, slots, counts, n).slots, n, k)
    {
      if k < n {
        ServedInPlace(b, slots, counts, n, k);
        var request := slots[SlotOf(b.first + k, |slots|)];
        ResponseMeaning(request, AskFails(b, k, request, Served(b, slots, counts, k).context));
      } else {
        ServedLeavesRest(b, slots, counts, n, k);
      }
    }
  }

  lemma AskAt(b: Batch, slots: seq<Slot>, asked: seq<Handled>, k: nat)
    requires 0 < |slots| == |b.commands| && k < |asked| && asked[k] == Asks(b, slots)(k)
    ensures LogSeen(b, slots, asked, k)
  {
    var at := SlotOf(b.first + k, |slots|);
    assert Asks(b, slots)(k) == Ask(b, k, slots[at]);
    assert at == SlotOf(b.first + k, |b.commands|);
  }

  lemma ServedLogged(b: Batch, slots: seq<Slot>, counts: Counts, n: nat)
    requires n <= |slots| == |b.commands| && 0 < |slots|
    ensures LogGrew(b, slots, counts.log, Served(b, slots, counts, n).context.log, n)
  {
    var history := ServedHistory(b, slots, counts, n);
    HistoryLog(history, Asks(b, slots), n);
    var asked := First(Asks(b, slots), n);
    var logged := Served(b, slots, counts, n).context.log;
    assert logged == counts.log + asked && logged[|counts.log|..] == asked;
    forall k: nat | k < n
      ensures LogSeen(b, slots, asked, k)
    {
      AskAt(b, slots, asked, k);
    }
  }

  /** After n requests of a batch: each answered in place or untouched, and the device's log longer by just those. */
  ghost predicate PassSeen(b: Batch, before: seq<Slot>, after: seq<Slot>, log: seq<Handled>, logged: seq<Handled>,
                           n: nat)
    requires 0 < |before| == |after| == |b.commands|
  {
    SlotsSeen(b.first, before, after, n) && LogGrew(b, before, log, logged, n)
  }

  lemma ServedSeen(b: Batch, slots: seq<Slot>, counts: Counts)
    requires 0 < |slots| == |b.commands|
    ensures forall n: nat | n <= |slots| ::
      var p := Served(b, slots, counts, n); PassSeen(b, slots, p.slots, counts.log, p.context.log, n)
  {
    forall n: nat | n <= |slots|
      ensures var p := Served(b, slots, counts, n); PassSeen(b, slots, p.slots, counts.log, p.context.log, n)
    {
      ServedSlots(b, slots, counts, n);
      ServedLogged(b, slots, counts, n);
    }
  }

  /**
   A pass over the requests published when it starts. kthread_should_stop answers true from the
   `stopAfter`-th test on; `errors(k)` is the device's answer to the k-th request if it is asked.
   */
  method DoCharIoOp(ring: Ring, pool: Pool, dev: Device, front: nat, stopAfter: nat, errors: nat -> bool)
    returns (more: bool, served: nat)
    requires ring.Valid() && ring.consumed == ring.answered && pool.Valid()
    modifies ring, ring.slots, pool, dev
    ensures var b := old(BatchOf(front, ring, errors));
      Between(b, served, Served(b, old(ring.slots[..]), old(dev.Contents()), served), ring, dev)
    ensures ring.published == old(ring.published) && pool.Valid() && pool.free == old(pool.free)
    ensures served == Share(ring.published - old(ring.consumed), pool.free, stopAfter)
    ensures more <==> ring.consumed < ring.published
    ensures ring.consumed == old(ring.consumed) + served && served <= stopAfter
    ensures pool.free == [] ==> served == 0
    ensures more ==> pool.free == [] || served == stopAfter
    ensures !more ==> ring.consumed == ring.published
    ensures served <= ring.slots.Length
    ensures var b := old(BatchOf(front, ring, errors));
      PassSeen(b, old(ring.slots[..]), ring.slots[..], old(dev.log), dev.log, served)
  {
    ServedSeen(BatchOf(front, ring, errors), ring.slots[..], dev.Contents());
    ghost var b := BatchOf(front, ring, errors);
    ghost var spec := ServedSteps(b, ring.slots[..], dev.Contents());
    GuardFalse(ring);
    more, served := Loop(ring, pool, dev, front, stopAfter, errors, b, spec);
  }
}
