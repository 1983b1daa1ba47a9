/**
 Shared use of one device by several frontends (ire/backup_con/dom0_141223_blocksz/data.c): a counter goes
 up and down with their requests, and the device itself is called only when it reaches one going up or zero
 going down. The same scheme serves open/close and DMA start/stop.
 */
module RefCount {

  /** A frontend's request to acquire or release the device. */
  datatype Event = Up(front: nat) | Down(front: nat)

  function Change(e: Event): int
  {
    if e.Up? then 1 else -1
  }

  /** The driver's counter after the events. */
  function Count(events: seq<Event>): int
  {
    if events == [] then 0 else Count(events[..|events| - 1]) + Change(events[|events| - 1])
  }

  /** What one frontend has acquired and not released. */
  function Net(events: seq<Event>, front: nat): int
  {
    if events == [] then 0
    else
      var e := events[|events| - 1];
      Net(events[..|events| - 1], front) + if e.front == front then Change(e) else 0
  }

  /** The device call an event causes at a counter value: true to begin, false to end. */
  function Called(count: int, e: Event): seq<bool>
  {
    if e.Up? && count + 1 == 1 then [true] else if e.Down? && count - 1 == 0 then [false] else []
  }

  /** The device calls made, in order. */
  function Calls(events: seq<Event>): seq<bool>
  {
    if events == [] then []
    else
      var init := events[..|events| - 1];
      Calls(init) + Called(Count(init), events[|events| - 1])
  }

  /** Begin and end strictly alternate, starting with begin. */
  predicate Alternate(calls: seq<bool>)
  {
    forall i | 0 <= i < |calls| :: calls[i] == (i % 2 == 0)
  }

  predicate InUse(calls: seq<bool>)
  {
    calls != [] && calls[|calls| - 1]
  }

  lemma Snoc(events: seq<Event>, e: Event)
    ensures Count(events + [e]) == Count(events) + Change(e)
    ensures Calls(events + [e]) == Calls(events) + Called(Count(events), e)
  {
    assert (events + [e])[..|events|] == events;
  }

  /** One event keeps the calls alternating and in step with the count. */
  lemma CallsNext(calls: seq<bool>, count: int, e: Event)
    requires Alternate(calls) && (InUse(calls) <==> count > 0)
    ensures Alternate(calls + Called(count, e))
    ensures InUse(calls + Called(count, e)) <==> count + Change(e) > 0
  {
    if calls != [] {
      assert calls[|calls| - 1] == ((|calls| - 1) % 2 == 0);
    }
  }

  /** Whatever the frontends do, device calls alternate and the device is in use exactly while the count is positive. */
  lemma {:induction false} CallsAlternate(events: seq<Event>)
    ensures Alternate(Calls(events))
    ensures InUse(Calls(events)) <==> Count(events) > 0
  {
    if events != [] {
      var init := events[..|events| - 1];
      CallsAlternate(init);
      CallsNext(Calls(init), Count(init), events[|events| - 1]);
    }
  }

  // ----- frontends that balance their requests -----

  function Total(events: seq<Event>, n: nat): int
  {
    if n == 0 then 0 else Total(events, n - 1) + Net(events, n - 1)
  }

  predicate FrontsBelow(events: seq<Event>, n: nat)
  {
    forall i | 0 <= i < |events| :: events[i].front < n
  }

  lemma {:induction false} TotalNone(n: nat)
    ensures Total([], n) == 0
  {
    if n > 0 {
      TotalNone(n - 1);
    }
  }

  lemma {:induction false} TotalSnoc(events: seq<Event>, n: nat)
    requires events != []
    ensures Total(events, n) == Total(events[..|events| - 1], n)
      + if events[|events| - 1].front < n then Change(events[|events| - 1]) else 0
  {
    if n > 0 {
      TotalSnoc(events, n - 1);
    }
  }

  /** The counter is the sum of what the frontends hold. */
  lemma {:induction false} CountIsTotal(events: seq<Event>, n: nat)
    requires FrontsBelow(events, n)
    ensures Count(events) == Total(events, n)
  {
    if events == [] {
      TotalNone(n);
    } else {
      TotalSnoc(events, n);
      CountIsTotal(events[..|events| - 1], n);
    }
  }

  ghost predicate SomeoneHolds(events: seq<Event>, n: nat)
  {
    exists f: nat :: f < n && Net(events, f) > 0
  }

  /** No frontend has released more than it acquired. */
  ghost predicate Balanced(events: seq<Event>, n: nat)
  {
    forall f: nat :: f < n ==> Net(events, f) >= 0
  }

  lemma {:induction false} TotalPositive(events: seq<Event>, n: nat)
    requires Balanced(events, n)
    ensures Total(events, n) >= 0 && (Total(events, n) > 0 <==> SomeoneHolds(events, n))
  {
    if n > 0 {
      TotalPositive(events, n - 1);
      if SomeoneHolds(events, n - 1) {
        var f: nat :| f < n - 1 && Net(events, f) > 0;
        assert f < n && Net(events, f) > 0;
      }
    }
  }

  lemma {:induction false} PositiveHasHolder(events: seq<Event>, n: nat)
    requires Total(events, n) > 0
    ensures SomeoneHolds(events, n)
  {
    if Net(events, n - 1) <= 0 {
      PositiveHasHolder(events, n - 1);
      var f: nat :| f < n - 1 && Net(events, f) > 0;
      assert f < n && Net(events, f) > 0;
    }
  }

  /** Over any interleaving of balanced frontends the device is in use exactly when some frontend holds it. */
  lemma InUseIffHeld(events: seq<Event>, n: nat)
    requires FrontsBelow(events, n) && Balanced(events, n)
    ensures InUse(Calls(events)) <==> SomeoneHolds(events, n)
  {
    CallsAlternate(events);
    CountIsTotal(events, n);
    TotalPositive(events, n);
  }

  // ----- frontends that do not -----

  /** What the frontends that hold anything hold between them. */
  function Held(events: seq<Event>, n: nat): nat
  {
    if n == 0 then 0
    else Held(events, n - 1) + if Net(events, n - 1) > 0 then Net(events, n - 1) else 0
  }

  /** What the others have released beyond what they acquired. */
  function Surplus(events: seq<Event>, n: nat): nat
  {
    if n == 0 then 0
    else Surplus(events, n - 1) + if Net(events, n - 1) < 0 then -Net(events, n - 1) else 0
  }

  lemma {:induction false} TotalSplits(events: seq<Event>, n: nat)
    ensures Total(events, n) == Held(events, n) - Surplus(events, n)
    ensures Held(events, n) > 0 <==> SomeoneHolds(events, n)
  {
    if n > 0 {
      TotalSplits(events, n - 1);
      if SomeoneHolds(events, n - 1) {
        var f: nat :| f < n - 1 && Net(events, f) > 0;
        assert f < n && Net(events, f) > 0;
      }
    }
  }

  /**
   For any frontends at all: the device is in use exactly while some frontend holds it, as long as nobody holds it or
   the surplus releases are fewer than what is held; once they reach that, a holder is left with a device not in use.
   */
  lemma InUseExactly(events: seq<Event>, n: nat)
    requires FrontsBelow(events, n)
    ensures (InUse(Calls(events)) <==> SomeoneHolds(events, n))
      <==> (Held(events, n) == 0 || Surplus(events, n) < Held(events, n))
  {
    CallsAlternate(events);
    CountIsTotal(events, n);
    TotalSplits(events, n);
  }

  /** Even without balance a device in use is held by someone. */
  lemma InUseIsHeld(events: seq<Event>, n: nat)
    requires FrontsBelow(events, n) && InUse(Calls(events))
    ensures SomeoneHolds(events, n)
  {
    CallsAlternate(events);
    CountIsTotal(events, n);
    PositiveHasHolder(events, n);
  }

  /** Each frontend releases only what it holds at the time. */
  predicate Disciplined(events: seq<Event>)
  {
    forall i | 0 <= i < |events| :: events[i].Down? ==> Net(events[..i], events[i].front) > 0
  }

  /** Frontends that check before releasing are balanced. */
  lemma {:induction false} DisciplinedBalanced(events: seq<Event>, n: nat)
    requires Disciplined(events)
    ensures Balanced(events, n)
  {
    if events != [] {
      var init := events[..|events| - 1];
      forall i | 0 <= i < |init|
        ensures init[i].Down? ==> Net(init[..i], init[i].front) > 0
      {
        assert init[..i] == events[..i] && init[i] == events[i];
      }
      DisciplinedBalanced(init, n);
      assert events[..|init|] == init;
    }
  }

  /** One surplus release is enough: the next frontend believes it has opened a device that stays closed. */
  lemma SurplusReleaseHides()
    ensures var events := [Down(0), Up(1)];
      SomeoneHolds(events, 2) && !InUse(Calls(events)) && !Balanced(events, 2)
  {
    var events := [Down(0), Up(1)];
    assert events[..1] == [Down(0)] && [Down(0)][..0] == [];
    assert Net([Down(0)], 1) == 0 && Net([Down(0)], 0) == -1;
    assert Net(events, 1) == 1 && Net(events, 0) == -1;
    assert Count([Down(0)]) == -1 && Calls([Down(0)]) == [];
    assert Calls(events) == [];
  }
}
