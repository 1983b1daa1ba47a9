/**
 The single-consumer dispatcher of the network back end (ire/Net_Dom0/data.c): interrupt handlers and the
 receive thread push tasks under a lock and then wake the request thread, which sleeps until the queue is
 non-empty or it is asked to stop, pops under the lock and serves. NativeQueue shows that the linked queue in
 memory changes as the Push and Pop steps say.
 */
module Dispatcher {

  /** Who asked: the local ring (type 0) or the remote peer (type 1). */
  datatype Task = Native(id: nat) | Remote(id: nat)

  /** What xen_queue_pop gave the request thread. */
  datatype Popped = Nothing | Got(task: Task)

  datatype Worker =
    | Testing               // inside wait_event, about to evaluate its condition
    | Asleep                // the condition was false
    | Taking                // the condition was true, about to pop
    | Holding(popped: Popped)

  /** A producer between its push and its wake_up. */
  datatype Producer = Quiet | Pushed

  datatype State = State(
    queue: seq<Task>, worker: Worker, stop: bool, producers: seq<Producer>,
    pushes: seq<Task>,      // every task pushed, in order
    served: seq<Task>)      // every task served, in order

  datatype Step =
    | Push(p: nat, task: Task)
    | WakeUp(p: nat)
    | Test
    | Pop
    | Serve
    | Stop                  // kthread_stop: sets the flag and wakes the thread

  predicate Enabled(s: State, step: Step)
  {
    match step
    case Push(p, _) => p < |s.producers| && s.producers[p] == Quiet
    case WakeUp(p) => p < |s.producers| && s.producers[p] == Pushed
    case Test => s.worker == Testing
    case Pop => s.worker == Taking
    case Serve => s.worker.Holding? && s.worker.popped.Got?
    case Stop => true
  }

  function Woken(w: Worker): Worker
  {
    if w == Asleep then Testing else w
  }

  function Apply(s: State, step: Step): State
    requires Enabled(s, step)
  {
    match step
    case Push(p, task) =>
      s.(queue := s.queue + [task], pushes := s.pushes + [task], producers := s.producers[p := Pushed])
    case WakeUp(p) => s.(worker := Woken(s.worker), producers := s.producers[p := Quiet])
    case Test => s.(worker := if s.queue != [] || s.stop then Taking else Asleep)
    case Pop =>
      if s.queue == [] then s.(worker := Holding(Nothing))
      else s.(queue := s.queue[1..], worker := Holding(Got(s.queue[0])))
    case Serve => s.(worker := Testing, served := s.served + [s.worker.popped.task])
    case Stop => s.(stop := true, worker := Woken(s.worker))
  }

  function Initial(producers: nat): State
  {
    State([], Testing, false, seq(producers, _ => Quiet), [], [])
  }

  predicate ValidRun(s: State, steps: seq<Step>)
    decreases |steps|
  {
    steps == [] || (Enabled(s, steps[0]) && ValidRun(Apply(s, steps[0]), steps[1..]))
  }

  function Run(s: State, steps: seq<Step>): State
    requires ValidRun(s, steps)
    decreases |steps|
  {
    if steps == [] then s else Run(Apply(s, steps[0]), steps[1..])
  }

  // ----- invariant -----

  function InHand(w: Worker): seq<Task>
  {
    if w.Holding? && w.popped.Got? then [w.popped.task] else []
  }

  /** Nothing is lost, duplicated or reordered between the pushes and the service. */
  predicate InOrder(s: State)
  {
    s.pushes == s.served + InHand(s.worker) + s.queue
  }

  /** Only a stop lets the thread reach its pop with an empty queue. */
  predicate PopsSafely(s: State)
  {
    && (s.worker == Taking ==> s.queue != [] || s.stop)
    && (s.worker == Holding(Nothing) ==> s.stop)
  }

  /** A sleeping thread with work to do is about to be woken. */
  ghost predicate NoLostWakeup(s: State)
  {
    s.worker == Asleep ==> !s.stop && (s.queue == [] || exists p :: 0 <= p < |s.producers| && s.producers[p] == Pushed)
  }

  ghost predicate Inv(s: State)
  {
    InOrder(s) && PopsSafely(s) && NoLostWakeup(s)
  }

  lemma StepKeepsInOrder(s: State, step: Step)
    requires InOrder(s) && Enabled(s, step)
    ensures InOrder(Apply(s, step))
  {
    var q := Apply(s, step);
    match step
    case Push(_, task) =>
      assert s.served + InHand(s.worker) + (s.queue + [task]) == s.served + InHand(s.worker) + s.queue + [task];
    case Pop =>
      if s.queue != [] {
        assert s.queue == [s.queue[0]] + s.queue[1..];
        assert s.served + [] + s.queue == s.served + [s.queue[0]] + s.queue[1..];
      }
    case Serve =>
      assert q.served + [] + q.queue == s.served + InHand(s.worker) + s.queue;
    case _ =>
  }

  lemma StepKeepsWakeup(s: State, step: Step)
    requires NoLostWakeup(s) && Enabled(s, step)
    ensures NoLostWakeup(Apply(s, step))
  {
    var q := Apply(s, step);
    if q.worker == Asleep {
      match step
      case Push(p, _) => assert q.producers[p] == Pushed;
      case _ =>
    }
  }

  lemma StepKeepsInv(s: State, step: Step)
    requires Inv(s) && Enabled(s, step)
    ensures Inv(Apply(s, step))
  {
    StepKeepsInOrder(s, step);
    StepKeepsWakeup(s, step);
  }

  lemma {:induction false} RunKeepsInv(s: State, steps: seq<Step>)
    requires Inv(s) && ValidRun(s, steps)
    ensures Inv(Run(s, steps))
    decreases |steps|
  {
    if steps != [] {
      StepKeepsInv(s, steps[0]);
      RunKeepsInv(Apply(s, steps[0]), steps[1..]);
    }
  }

  // ----- over whole runs -----

  /** With any number of producers and one consumer, served, in hand and queued together are the push log. */
  lemma ServedInPushOrder(producers: nat, steps: seq<Step>)
    requires ValidRun(Initial(producers), steps)
    ensures var s := Run(Initial(producers), steps);
      s.pushes == s.served + InHand(s.worker) + s.queue
  {
    RunKeepsInv(Initial(producers), steps);
  }

  /** A pop gives nothing exactly when the queue is empty, and that takes a requested stop. */
  lemma PopNullOnlyOnStop(producers: nat, steps: seq<Step>)
    requires ValidRun(Initial(producers), steps) && Run(Initial(producers), steps).worker == Taking
    ensures var s := Run(Initial(producers), steps);
      && (Apply(s, Pop).worker == Holding(Nothing) <==> s.queue == [])
      && (s.queue == [] ==> s.stop)
  {
    RunKeepsInv(Initial(producers), steps);
  }

  /** The stop case is real: a thread stopped while idle pops nothing and goes on to use it. */
  lemma StopPopsNothing()
    ensures var steps := [Test, Stop, Test, Pop];
      ValidRun(Initial(1), steps) && Run(Initial(1), steps).worker == Holding(Nothing)
  {
    var s0 := Initial(1);
    var s1 := Apply(s0, Test);
    var s2 := Apply(s1, Stop);
    var s3 := Apply(s2, Test);
    var s4 := Apply(s3, Pop);
    assert ValidRun(s4, []) && Run(s4, []) == s4;
    assert [Pop][1..] == [];
    assert ValidRun(s3, [Pop]) && Run(s3, [Pop]) == s4;
    assert [Test, Pop][1..] == [Pop];
    assert ValidRun(s2, [Test, Pop]) && Run(s2, [Test, Pop]) == s4;
    assert [Stop, Test, Pop][1..] == [Test, Pop];
    assert ValidRun(s1, [Stop, Test, Pop]) && Run(s1, [Stop, Test, Pop]) == s4;
    assert [Test, Stop, Test, Pop][1..] == [Stop, Test, Pop];
  }

  /** The thread never sleeps on a non-empty queue unless a producer still has its wake_up to do. */
  lemma NeverSleepsOnWork(producers: nat, steps: seq<Step>)
    requires ValidRun(Initial(producers), steps) && Run(Initial(producers), steps).worker == Asleep
    ensures var s := Run(Initial(producers), steps);
      !s.stop && (s.queue == [] || exists p :: 0 <= p < |s.producers| && s.producers[p] == Pushed)
  {
    RunKeepsInv(Initial(producers), steps);
  }

  // ----- progress -----

  ghost predicate Reachable(s: State)
  {
    exists producers, steps :: ValidRun(Initial(producers), steps) && s == Run(Initial(producers), steps)
  }

  lemma ReachableInv(s: State)
    requires Reachable(s)
    ensures Inv(s)
  {
    var producers, steps :| ValidRun(Initial(producers), steps) && s == Run(Initial(producers), steps);
    RunKeepsInv(Initial(producers), steps);
  }

  /** A thread that tests the queue goes to sleep exactly if there is nothing in it and no stop; otherwise it pops. */
  lemma TestOutcome(s: State)
    requires Enabled(s, Test)
    ensures var q := Apply(s, Test);
      && (s.queue != [] || s.stop ==> Enabled(q, Pop))
      && (s.queue == [] && !s.stop ==> q.worker == Asleep)
      && q.queue == s.queue && q.served == s.served
  {
  }

  /** A run of the thread alone. */
  ghost predicate WorksTo(s: State, steps: seq<Step>, q: State)
  {
    && ValidRun(s, steps) && Run(s, steps) == q
    && forall step | step in steps :: step in {Test, Pop, Serve}
  }

  lemma WorkFirst(s: State, step: Step, steps: seq<Step>, q: State)
    requires Enabled(s, step) && step in {Test, Pop, Serve} && WorksTo(Apply(s, step), steps, q)
    ensures WorksTo(s, [step] + steps, q)
  {
    assert ([step] + steps)[1..] == steps;
  }

  /** Test, pop, serve: the head of the queue. */
  lemma ServesHead(s: State) returns (q: State)
    requires s.worker == Testing && s.queue != []
    ensures q.worker == Testing && q.served == s.served + [s.queue[0]] && q.queue == s.queue[1..]
    ensures forall steps, r | WorksTo(q, steps, r) :: WorksTo(s, [Test] + ([Pop] + ([Serve] + steps)), r)
  {
    var s1 := Apply(s, Test);
    var s2 := Apply(s1, Pop);
    q := Apply(s2, Serve);
    forall steps, r | WorksTo(q, steps, r)
      ensures WorksTo(s, [Test] + ([Pop] + ([Serve] + steps)), r)
    {
      WorkFirst(s2, Serve, steps, r);
      WorkFirst(s1, Pop, [Serve] + steps, r);
      WorkFirst(s, Test, [Pop] + ([Serve] + steps), r);
    }
  }

  /** Left alone, a thread about to test serves the queue, in order and to the end. */
  lemma {:induction false} ServesQueue(s: State) returns (steps: seq<Step>, q: State)
    requires s.worker == Testing
    ensures WorksTo(s, steps, q) && q.worker == Testing && q.served == s.served + s.queue && q.queue == []
    decreases |s.queue|
  {
    if s.queue == [] {
      steps, q := [], s;
      assert s.served + [] == s.served;
    } else {
      var p := ServesHead(s);
      steps, q := ServesQueue(p);
      assert s.served + [s.queue[0]] + s.queue[1..] == s.served + s.queue;
      steps := [Test] + ([Pop] + ([Serve] + steps));
    }
  }

  /** A task pushed is served: left alone from any reachable test the thread serves everything pushed so far. */
  lemma EverythingServed(s: State)
    requires Reachable(s) && s.worker == Testing
    ensures exists steps, q :: WorksTo(s, steps, q) && q.served == s.pushes
  {
    ReachableInv(s);
    var steps, q := ServesQueue(s);
    assert s.served + [] + s.queue == s.served + s.queue;
  }

  /** Waking and stopping start a sleeping thread, and nothing else moves it. */
  lemma Wakes(s: State, step: Step)
    requires Enabled(s, step) && s.worker == Asleep
    ensures Apply(s, step).worker == if step.WakeUp? || step == Stop then Testing else Asleep
  {
  }

  lemma {:induction false} RunThen(s: State, steps: seq<Step>, step: Step)
    requires ValidRun(s, steps) && Enabled(Run(s, steps), step)
    ensures ValidRun(s, steps + [step]) && Run(s, steps + [step]) == Apply(Run(s, steps), step)
    decreases |steps|
  {
    if steps == [] {
      assert [step][1..] == [] && [] + [step] == [step];
    } else {
      RunThen(Apply(s, steps[0]), steps[1..], step);
      assert (steps + [step])[1..] == steps[1..] + [step];
    }
  }

  lemma ReachableThen(s: State, step: Step)
    requires Reachable(s) && Enabled(s, step)
    ensures Reachable(Apply(s, step))
  {
    var producers, steps :| ValidRun(Initial(producers), steps) && s == Run(Initial(producers), steps);
    RunThen(Initial(producers), steps, step);
  }

  /** Producers can push any tasks, whatever the thread does. */
  lemma {:induction false} AnyPushes(tasks: seq<Task>) returns (s: State)
    ensures Reachable(s) && s.pushes == tasks && s.producers == [Quiet] && !s.stop
  {
    if tasks == [] {
      s := Initial(1);
      assert ValidRun(Initial(1), []) && Run(Initial(1), []) == s;
    } else {
      var n := |tasks| - 1;
      s := AnyPushes(tasks[..n]);
      ReachableThen(s, Push(0, tasks[n]));
      s := Apply(s, Push(0, tasks[n]));
      ReachableThen(s, WakeUp(0));
      s := Apply(s, WakeUp(0));
      assert tasks == tasks[..n] + [tasks[n]];
    }
  }
}
