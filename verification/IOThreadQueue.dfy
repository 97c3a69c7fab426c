/** The event queue of java_netprogramming/src/com/haska/network/impl/IOThread.java: producers that offer and
    then wake the selector, and one worker that empties the queue and then selects. The steps are sequentially
    consistent and the selector's wakeup is sticky: it makes the next select return. */
module IOThreadQueue {
  import opened Sequences

  type Event = nat
  type Thread = nat

  // The worker is itself a producer when a listener or a channel handler it runs calls addListener.
  const WORKER: Thread := 0

  datatype Worker = TestStop | TestEmpty | Polling | Processing | Selecting | Handling | Exited

  /** offered are the threads between listener.offer and poller_.wakeup;
      stopping is the thread of stop() between setting stop_ and waking. */
  datatype State = State(worker: Worker, queue: seq<Event>, wakeup: bool, stop: bool,
                         offered: set<Thread>, stopping: bool,
                         offers: seq<Event>, dispatched: seq<Event>)

  datatype Step =
    | Offer(t: Thread, e: Event)
    | Wake(t: Thread)
    | SetStop
    | WakeForStop
    | TestStopFlag
    | TestQueue
    | Poll            // takes the head and enters its listener
    | Processed
    | SelectWoken     // select returns because of a wakeup
    | SelectReady(consumed: bool)  // select returns because a channel is ready
    | Handled

  const START := State(TestStop, [], false, false, {}, false, [], [])

  // A listener or a handler is running in the worker thread.
  predicate InCallback(s: State) { s.worker == Processing || s.worker == Handling }

  predicate Enabled(s: State, step: Step) {
    match step
    case Offer(t, _) => t !in s.offered && (t == WORKER ==> InCallback(s))
    case Wake(t) => t in s.offered
    case SetStop => !s.stop
    case WakeForStop => s.stopping
    case TestStopFlag => s.worker == TestStop
    case TestQueue => s.worker == TestEmpty
    case Poll => s.worker == Polling
    case Processed => s.worker == Processing && WORKER !in s.offered
    case SelectWoken => s.worker == Selecting && s.wakeup
    case SelectReady(_) => s.worker == Selecting
    case Handled => s.worker == Handling && WORKER !in s.offered
  }

  function Apply(s: State, step: Step): State
    requires Enabled(s, step)
  {
    match step
    case Offer(t, e) => s.(queue := s.queue + [e], offers := s.offers + [e], offered := s.offered + {t})
    case Wake(t) => s.(wakeup := true, offered := s.offered - {t})
    case SetStop => s.(stop := true, stopping := true)
    case WakeForStop => s.(wakeup := true, stopping := false)
    case TestStopFlag => s.(worker := if s.stop then Exited else TestEmpty)
    case TestQueue => s.(worker := if s.queue == [] then Selecting else Polling)
    case Poll =>
      if s.queue == [] then s
      else s.(worker := Processing, queue := s.queue[1..], dispatched := s.dispatched + [s.queue[0]])
    case Processed => s.(worker := TestEmpty)
    case SelectWoken => s.(worker := Handling, wakeup := false)
    case SelectReady(consumed) => s.(worker := Handling, wakeup := s.wakeup && !consumed)
    case Handled => s.(worker := TestStop)
  }

  function Next(s: State, step: Step): State { if Enabled(s, step) then Apply(s, step) else s }

  // Every list of steps is a run: a step that is not enabled changes nothing.
  function Exec(steps: seq<Step>): State {
    if steps == [] then START else Next(Exec(steps[..|steps| - 1]), steps[|steps| - 1])
  }

  // ---------- safety ----------

  /** Events are dispatched in the order of the offers, none twice, none dropped. */
  predicate InOrder(s: State) { s.dispatched + s.queue == s.offers }

  /** No lost event: a worker at select with events queued has a wakeup waiting for it,
      or a producer that is about to wake it. */
  predicate NoLostEvent(s: State) {
    s.worker == Selecting && s.queue != [] ==> s.wakeup || exists t :: t in s.offered && t != WORKER
  }

  /** No lost stop: a stop that was asked for is on its way to the worker, which exits only then. */
  predicate NoLostStop(s: State) {
    && (s.stop ==> s.stopping || s.wakeup || s.worker == Handling || s.worker == TestStop || s.worker == Exited)
    && (s.worker == Exited || s.stopping ==> s.stop)
  }

  ghost predicate Inv(s: State) {
    && InOrder(s) && NoLostEvent(s) && NoLostStop(s)
    && (s.worker == Polling ==> s.queue != [])
    && (WORKER in s.offered ==> InCallback(s))
  }

  lemma StepKeeps(s: State, step: Step)
    requires Inv(s)
    ensures Inv(Next(s, step))
  {
    if Enabled(s, step) {
      var t := Apply(s, step);
      match step
      case Offer(p, e) =>
        assert t.dispatched + t.queue == (s.dispatched + s.queue) + [e];
        assert p in t.offered;
      case Poll => assert s.queue == [s.queue[0]] + t.queue;
      case _ =>
    }
  }

  lemma {:induction false} EveryRunKeeps(steps: seq<Step>)
    ensures Inv(Exec(steps))
  {
    if steps != [] {
      EveryRunKeeps(steps[..|steps| - 1]);
      StepKeeps(Exec(steps[..|steps| - 1]), steps[|steps| - 1]);
    }
  }

  // ---------- progress ----------

  // What the environment decides: new events, the end, and channels that become ready.
  predicate External(step: Step) { step.Offer? || step.SetStop? || step.SelectReady? }

  // The worker sleeps or has ended, and no thread is about to wake it.
  predicate Quiet(s: State) {
    && ((s.worker == Selecting && !s.wakeup) || s.worker == Exited)
    && s.offered == {} && !s.stopping
  }

  function Work(s: State): nat {
    4 * |s.queue| + 5 * |s.offered|
    + (if s.wakeup then 4 else 0) + (if s.stopping then 5 else 0)
    + (match s.worker
       case Exited => 0 case Selecting => 0 case Polling => 0
       case TestEmpty => 1 case TestStop => 2 case Processing => 3 case Handling => 3)
  }

  /** Every step the threads take on their own does part of the remaining work, and one is enabled until all is
      quiet. */
  lemma {:induction false} WorkGetsDone(s: State)
    requires Inv(s)
    ensures forall step :: Enabled(s, step) && !External(step) ==> Work(Apply(s, step)) < Work(s)
    ensures Quiet(s) <==> forall step :: Enabled(s, step) ==> External(step)
  {
    forall step | Enabled(s, step) && !External(step)
      ensures Work(Apply(s, step)) < Work(s)
    {
      if step.Wake? {
        assert |s.offered - {step.t}| == |s.offered| - 1;
      }
    }
    if !Quiet(s) {
      if s.offered != {} {
        var t :| t in s.offered;
        assert Enabled(s, Wake(t));
      } else {
        assert Enabled(s, WakeForStop) || Enabled(s, TestStopFlag) || Enabled(s, TestQueue) || Enabled(s, Poll)
          || Enabled(s, Processed) || Enabled(s, SelectWoken) || Enabled(s, Handled);
      }
    }
  }

  lemma {:induction false} StopIsKept(s: State, step: Step)
    requires !External(step)
    ensures Next(s, step).stop == s.stop
  {
  }

  /** From every reachable state the threads, left alone, come to rest: if the thread was stopped, the worker has
      exited; if not, it has dispatched everything offered, in order, and sleeps. */
  lemma {:induction false} EverythingIsDispatchedEventually(steps: seq<Step>) returns (more: seq<Step>)
    ensures forall i :: 0 <= i < |more| ==> !External(more[i])
    ensures var s := Exec(steps + more);
            && Quiet(s) && s.stop == Exec(steps).stop
            && (if s.stop then s.worker == Exited else s.worker == Selecting && s.dispatched == s.offers)
    decreases Work(Exec(steps))
  {
    var s := Exec(steps);
    EveryRunKeeps(steps);
    WorkGetsDone(s);
    if Quiet(s) {
      more := [];
      assert steps + more == steps;
    } else {
      var step :| Enabled(s, step) && !External(step);
      assert (steps + [step])[..|steps|] == steps;
      StopIsKept(s, step);
      var rest := EverythingIsDispatchedEventually(steps + [step]);
      more := [step] + rest;
      assert steps + more == (steps + [step]) + rest;
    }
  }

  /** A thread that is not in addListener already can offer at any time; what it offers is dispatched after everything
      that was offered before, unless the thread is stopped. */
  lemma {:induction false} OfferIsDispatched(steps: seq<Step>, t: Thread, e: Event) returns (more: seq<Step>)
    requires t != WORKER && t !in Exec(steps).offered && !Exec(steps).stop
    ensures forall i :: 0 <= i < |more| ==> !External(more[i])
    ensures Exec(steps + [Offer(t, e)] + more).dispatched == Exec(steps).offers + [e]
  {
    var offer := steps + [Offer(t, e)];
    assert offer[..|steps|] == steps;
    more := EverythingIsDispatchedEventually(offer);
    assert Exec(offer).offers == Exec(steps).offers + [e];
    OffersAreKept(offer, more);
  }

  // What the threads do on their own offers nothing.
  lemma {:induction false} OffersAreKept(steps: seq<Step>, more: seq<Step>)
    requires forall i :: 0 <= i < |more| ==> !External(more[i])
    ensures Exec(steps + more).offers == Exec(steps).offers
  {
    if more == [] {
      assert steps + more == steps;
    } else {
      var last := |more| - 1;
      assert (steps + more)[..|steps + more| - 1] == steps + more[..last];
      OffersAreKept(steps, more[..last]);
    }
  }

  /** A stop ends the thread: whatever it was doing, it exits. */
  lemma {:induction false} StopEndsTheThread(steps: seq<Step>) returns (more: seq<Step>)
    ensures forall i :: 0 <= i < |more| ==> !External(more[i])
    ensures Exec(steps + [SetStop] + more).worker == Exited
  {
    assert (steps + [SetStop])[..|steps|] == steps;
    more := EverythingIsDispatchedEventually(steps + [SetStop]);
  }

  // ---------- the two methods ----------

  /** The object with its queue. */
  class IOThread {
    var listener: seq<Event>
    var wakeup: bool
    var dispatched: seq<Event>

    constructor ()
      ensures listener == [] && !wakeup && dispatched == []
    {
      listener, wakeup, dispatched := [], false, [];
    }

    ghost predicate Shows(s: State)
      reads this
    {
      listener == s.queue && wakeup == s.wakeup && dispatched == s.dispatched
    }

    // addListener is an offer and then a wakeup.
    method AddListener(e: Event, t: Thread, ghost s: State)
      requires Shows(s) && Enabled(s, Offer(t, e))
      modifies this
      ensures Shows(Next(Next(s, Offer(t, e)), Wake(t)))
      ensures listener == old(listener) + [e] && wakeup && dispatched == old(dispatched)
    {
      listener := listener + [e];
      wakeup := true;
    }

    /** dispatchListeners: until the queue is empty, the head is polled and processed. While the i-th event is
        processed, during[i] is added, by its listener or by other threads. Everything queued at the start or added
        meanwhile is dispatched, in order: n events, one per round. */
    method DispatchListeners(during: seq<seq<Event>>) returns (n: nat)
      modifies this
      ensures var added := Flatten(if n < |during| then during[..n] else during);
              && listener == [] && dispatched == old(dispatched) + old(listener) + added
              && n == |old(listener)| + |added| && wakeup == (old(wakeup) || added != [])
    {
      n := 0;
      assert old(dispatched) + old(listener) + [] == old(dispatched) + old(listener);
      while listener != []
        invariant dispatched + listener == old(dispatched) + old(listener) + Added(during, n)
        invariant |dispatched| == |old(dispatched)| + n
        invariant wakeup == (old(wakeup) || Added(during, n) != [])
        decreases if n < |during| then |during| - n else 0, |listener|
      {
        var e := listener[0];
        listener := listener[1..];
        dispatched := dispatched + [e];
        assert dispatched + listener == old(dispatched) + old(listener) + Added(during, n);
        AddedStep(during, n);
        if n < |during| && during[n] != [] {
          Regroup(dispatched, listener, during[n]);
          listener := listener + during[n];
          wakeup := true;
        }
        n := n + 1;
      }
    }
  }

  // What was added while the first n events were processed.
  function Added(during: seq<seq<Event>>, n: nat): seq<Event> {
    Flatten(if n < |during| then during[..n] else during)
  }

  lemma AddedStep(during: seq<seq<Event>>, n: nat)
    ensures Added(during, n + 1) == Added(during, n) + (if n < |during| then during[n] else [])
  {
    if n < |during| {
      FlattenSnoc(during[..n], during[n]);
      assert during[..n + 1] == during[..n] + [during[n]];
      assert during[..|during|] == during;
    }
  }
}
