/** The multi-process server of nwchecker_server_multiprocess.c (chapter 04-23): a master that accepts connections
    and passes each descriptor to some worker over a FIFO socketpair, workers that own them,
    and the shutdown that sends every worker an exit command and waits for it. */
module ProcessPool {
  import opened Sequences

  datatype Command = Fd(conn: nat) | Exit

  // A node of a worker's connection list; a closed one (fd == -1) waits for the next sweep.
  datatype Node = Node(conn: nat, open: bool)

  datatype Phase = Running | StoppedOnExit | StoppedOnError

  datatype Worker = Worker(queue: seq<Command>, list: seq<Node>, phase: Phase)

  // Serving: in the master's own worker loop. Closing(k): about to tell worker k. Waiting(k): in waitpid for it.
  datatype Master = Serving | Closing(k: nat) | Waiting(k: nat) | Done

  /** accepted connections are numbered from 0. closed lists the connections whose descriptor is closed everywhere;
      undelivered those among them that were still in the queue of a worker that stopped. */
  datatype State = State(master: Master, masterQueue: seq<Command>, masterList: seq<Node>,
                         workers: seq<Worker>, accepted: nat, closed: seq<nat>, undelivered: seq<nat>)

  datatype Step =
    | Accept(w: nat)                // accept, and the descriptor is sent to worker w
    | AcceptAndFailToSend           // accept, and sendmsg fails
    | Signal                        // SIGINT or SIGTERM: the handler sends the master its exit command
    | MasterCommand                 // the master reads its own command socket
    | MasterFails                   // select or accept fails for good
    | SendExit(delivered: bool)
    | WaitPid
    | Finish
    | WorkerCommand(w: nat, installed: bool)  // recvmsg, with or without room for the descriptor
    | CloseConnection(w: nat, i: nat)         // end of stream, or an error on recv or send
    | Sweep(w: nat)
    | WorkerFails(w: nat)           // select fails for good

  function Start(workers: nat): State {
    State(Serving, [], [], seq(workers, _ => Worker([], [], Running)), 0, [], [])
  }

  // ---------- steps ----------

  function Fds(queue: seq<Command>): seq<nat> {
    if queue == [] then []
    else Fds(queue[..|queue| - 1]) + (match queue[|queue| - 1] case Fd(c) => [c] case Exit => [])
  }

  function OpenConns(list: seq<Node>): seq<nat> {
    if list == [] then []
    else OpenConns(list[..|list| - 1]) + (if list[|list| - 1].open then [list[|list| - 1].conn] else [])
  }

  function OpenNodes(list: seq<Node>): seq<Node> { Except(list, (n: Node) => !n.open) }

  predicate Runs(s: State, w: nat) { w < |s.workers| && s.workers[w].phase == Running }

  predicate Enabled(s: State, step: Step) {
    match step
    case Accept(w) => s.master == Serving && Runs(s, w)
    case AcceptAndFailToSend => s.master == Serving
    case Signal => true
    case MasterCommand => s.master == Serving && s.masterQueue != []
    case MasterFails => s.master == Serving
    case SendExit(_) => s.master.Closing? && s.master.k < |s.workers|
    case WaitPid => s.master.Waiting? && s.master.k < |s.workers| && !Runs(s, s.master.k)
    case Finish => s.master == Closing(|s.workers|)
    case WorkerCommand(w, _) => Runs(s, w) && s.workers[w].queue != []
    case CloseConnection(w, i) => Runs(s, w) && i < |s.workers[w].list| && s.workers[w].list[i].open
    case Sweep(w) => Runs(s, w)
    case WorkerFails(w) => Runs(s, w)
  }

  function WithWorker(s: State, w: nat, worker: Worker): State
    requires w < |s.workers|
  {
    s.(workers := s.workers[w := worker])
  }

  // A worker leaves its loop: its list is destroyed, and closing its end of the socketpair closes what is in it.
  function Stopped(s: State, w: nat, queue: seq<Command>, phase: Phase): State
    requires w < |s.workers|
  {
    WithWorker(s, w, Worker([], [], phase)).(
      closed := s.closed + OpenConns(s.workers[w].list) + Fds(queue),
      undelivered := s.undelivered + Fds(queue))
  }

  function Apply(s: State, step: Step): State
    requires Enabled(s, step)
  {
    match step
    case Accept(w) =>
      var worker := s.workers[w];
      WithWorker(s, w, worker.(queue := worker.queue + [Fd(s.accepted)])).(accepted := s.accepted + 1)
    case AcceptAndFailToSend => s.(accepted := s.accepted + 1, closed := s.closed + [s.accepted])
    case Signal => s.(masterQueue := s.masterQueue + [Exit])
    case MasterCommand =>
      var next := s.(masterQueue := s.masterQueue[1..]);
      (match s.masterQueue[0]
       case Fd(c) => next.(masterList := s.masterList + [Node(c, true)])
       case Exit => next.(master := Closing(0), masterList := [], closed := s.closed + OpenConns(s.masterList)))
    case MasterFails => s.(master := Closing(0), masterList := [], closed := s.closed + OpenConns(s.masterList))
    case SendExit(delivered) =>
      var k := s.master.k;
      var worker := s.workers[k];
      var told := if delivered && Runs(s, k) then WithWorker(s, k, worker.(queue := worker.queue + [Exit])) else s;
      told.(master := Waiting(k))
    case WaitPid => s.(master := Closing(s.master.k + 1))
    case Finish => s.(master := Done)
    case WorkerCommand(w, installed) =>
      var worker := s.workers[w];
      (match worker.queue[0]
       case Fd(c) =>
         WithWorker(s, w, worker.(queue := worker.queue[1..], list := worker.list + [Node(c, installed)])).(
           closed := if installed then s.closed else s.closed + [c])
       case Exit => Stopped(s, w, worker.queue[1..], StoppedOnExit))
    case CloseConnection(w, i) =>
      var worker := s.workers[w];
      WithWorker(s, w, worker.(list := worker.list[i := worker.list[i].(open := false)])).(
        closed := s.closed + [worker.list[i].conn])
    case Sweep(w) => WithWorker(s, w, s.workers[w].(list := OpenNodes(s.workers[w].list)))
    case WorkerFails(w) => Stopped(s, w, s.workers[w].queue, StoppedOnError)
  }

  function Next(s: State, step: Step): State { if Enabled(s, step) then Apply(s, step) else s }

  // Every list of steps is a run: a step that is not enabled changes nothing.
  function Exec(workers: nat, steps: seq<Step>): State {
    if steps == [] then Start(workers) else Next(Exec(workers, steps[..|steps| - 1]), steps[|steps| - 1])
  }

  // ---------- what some steps leave ----------

  /** A connection that ends is closed where it stands, and its node stays until the next sweep. */
  lemma CloseLeavesTheNode(s: State, w: nat, i: nat)
    requires Enabled(s, CloseConnection(w, i))
    ensures var t, was := Apply(s, CloseConnection(w, i)), s.workers[w];
            && t.closed == s.closed + [was.list[i].conn] && t.undelivered == s.undelivered
            && t.workers == s.workers[w := Worker(was.queue, was.list[i := Node(was.list[i].conn, false)], was.phase)]
            && t.master == s.master && t.accepted == s.accepted
  {
  }

  /** A sweep unlinks exactly the closed nodes of one worker's list. */
  lemma SweepLeavesTheOpen(s: State, w: nat) returns (at: seq<nat>)
    requires Enabled(s, Sweep(w))
    ensures var t, was := Apply(s, Sweep(w)), s.workers[w];
            && t == s.(workers := s.workers[w := was.(list := t.workers[w].list)])
            && IsSubsequence(t.workers[w].list, was.list, at)
            && forall k :: 0 <= k < |was.list| ==> (k in at <==> was.list[k].open)
  {
    at := ExceptKeepsOrder(s.workers[w].list, (n: Node) => !n.open);
  }

  /** A worker whose select fails owns nothing any more: what it owned is closed, the commands in its queue unread. */
  lemma FailureClosesAll(s: State, w: nat, c: nat)
    requires Enabled(s, WorkerFails(w))
    ensures var t := Apply(s, WorkerFails(w));
            && t.workers == s.workers[w := Worker([], [], StoppedOnError)]
            && Count(t.closed, c) == Count(s.closed, c) + Owned(s.workers[w], c)
            && Count(t.undelivered, c) == Count(s.undelivered, c) + Count(Fds(s.workers[w].queue), c)
  {
    var worker := s.workers[w];
    CountAppend(s.closed, OpenConns(worker.list), c);
    CountAppend(s.closed + OpenConns(worker.list), Fds(worker.queue), c);
    CountAppend(s.undelivered, Fds(worker.queue), c);
  }

  // ---------- ownership ----------

  // How often a worker owns connection c.
  function Owned(worker: Worker, c: nat): nat { Count(Fds(worker.queue), c) + Count(OpenConns(worker.list), c) }

  function Holdings(workers: seq<Worker>, c: nat): seq<int> {
    seq(|workers|, w requires 0 <= w < |workers| => Owned(workers[w], c))
  }

  function Places(s: State, c: nat): int {
    Sum(Holdings(s.workers, c)) + Count(Fds(s.masterQueue), c) + Count(OpenConns(s.masterList), c) + Count(s.closed, c)
  }

  /** Every accepted connection is in exactly one place: one worker's queue, one worker's list, or closed. */
  ghost predicate OnePlaceEach(s: State) {
    forall c: nat :: Places(s, c) == if c < s.accepted then 1 else 0
  }

  lemma {:induction false} HoldingsUpdate(workers: seq<Worker>, w: nat, worker: Worker, c: nat)
    requires w < |workers|
    ensures Sum(Holdings(workers[w := worker], c))
         == Sum(Holdings(workers, c)) - Owned(workers[w], c) + Owned(worker, c)
  {
    assert Holdings(workers[w := worker], c) == Holdings(workers, c)[w := Owned(worker, c)];
    SumUpdate(Holdings(workers, c), w, Owned(worker, c));
  }

  lemma FdsAppend(queue: seq<Command>, c: Command)
    ensures Fds(queue + [c]) == if c.Fd? then Fds(queue) + [c.conn] else Fds(queue)
  {
    assert (queue + [c])[..|queue|] == queue;
  }

  lemma {:induction false} FdsHead(queue: seq<Command>)
    requires queue != []
    ensures Fds(queue) == if queue[0].Fd? then [queue[0].conn] + Fds(queue[1..]) else Fds(queue[1..])
  {
    if |queue| == 1 {
      assert queue[..0] == [] && queue[1..] == [];
    } else {
      var last := |queue| - 1;
      var front, tail := queue[..last], queue[1..];
      FdsHead(front);
      assert front[1..] == tail[..last - 1] && tail[last - 1] == queue[last];
    }
  }

  lemma OpenConnsAppend(list: seq<Node>, n: Node)
    ensures OpenConns(list + [n]) == if n.open then OpenConns(list) + [n.conn] else OpenConns(list)
  {
    assert (list + [n])[..|list|] == list;
  }

  lemma {:induction false} OpenConnsConcat(a: seq<Node>, b: seq<Node>)
    ensures OpenConns(a + b) == OpenConns(a) + OpenConns(b)
  {
    if b == [] {
      assert a + b == a;
    } else {
      var last := |b| - 1;
      OpenConnsConcat(a, b[..last]);
      assert (a + b)[..|a| + last] == a + b[..last];
    }
  }

  lemma OpenConnsClose(list: seq<Node>, i: nat, c: nat)
    requires i < |list| && list[i].open
    ensures Count(OpenConns(list), c)
         == Count(OpenConns(list[i := list[i].(open := false)]), c) + (if list[i].conn == c then 1 else 0)
  {
    var front, back, shut := list[..i], list[i + 1..], list[i].(open := false);
    OpenConnsAppend(front, list[i]);
    OpenConnsAppend(front, shut);
    OpenConnsConcat(front + [list[i]], back);
    OpenConnsConcat(front + [shut], back);
    assert list == front + [list[i]] + back && list[i := shut] == front + [shut] + back;
    CountSnoc(OpenConns(front), list[i].conn, c);
    CountAppend(OpenConns(front) + [list[i].conn], OpenConns(back), c);
    CountAppend(OpenConns(front), OpenConns(back), c);
  }

  lemma {:induction false} OpenConnsSweep(list: seq<Node>)
    ensures OpenConns(OpenNodes(list)) == OpenConns(list)
  {
    if list != [] {
      var last := |list| - 1;
      OpenConnsSweep(list[..last]);
      ExceptStep(list, (n: Node) => !n.open, last);
      assert list[..last + 1] == list;
      if list[last].open {
        OpenConnsAppend(OpenNodes(list[..last]), list[last]);
      } else {
        assert OpenNodes(list) == OpenNodes(list[..last]);
      }
    }
  }

  lemma {:induction false} StopMovesOwnership(s: State, w: nat, queue: seq<Command>, phase: Phase, c: nat)
    requires w < |s.workers| && Fds(queue) == Fds(s.workers[w].queue)
    ensures Places(Stopped(s, w, queue, phase), c) == Places(s, c)
  {
    HoldingsUpdate(s.workers, w, Worker([], [], phase), c);
    CountAppend(s.closed, OpenConns(s.workers[w].list), c);
    CountAppend(s.closed + OpenConns(s.workers[w].list), Fds(queue), c);
  }

  lemma DeliveryKeepsOwnership(worker: Worker, installed: bool, c: nat)
    requires worker.queue != [] && worker.queue[0].Fd?
    ensures var conn := worker.queue[0].conn;
            var next := worker.(queue := worker.queue[1..], list := worker.list + [Node(conn, installed)]);
            Owned(worker, c) == Owned(next, c) + (if conn == c && !installed then 1 else 0)
  {
    var conn := worker.queue[0].conn;
    FdsHead(worker.queue);
    CountHead(Fds(worker.queue), c);
    OpenConnsAppend(worker.list, Node(conn, installed));
    CountSnoc(OpenConns(worker.list), conn, c);
  }

  lemma DeliveryKeepsPlace(s: State, w: nat, installed: bool, c: nat)
    requires Enabled(s, WorkerCommand(w, installed)) && s.workers[w].queue[0].Fd?
    ensures Places(Apply(s, WorkerCommand(w, installed)), c) == Places(s, c)
  {
    var worker, t := s.workers[w], Apply(s, WorkerCommand(w, installed));
    var conn := worker.queue[0].conn;
    var next := worker.(queue := worker.queue[1..], list := worker.list + [Node(conn, installed)]);
    assert t.workers == s.workers[w := next];
    DeliveryKeepsOwnership(worker, installed, c);
    HoldingsUpdate(s.workers, w, next, c);
    CountSnoc(s.closed, conn, c);
  }

  lemma WorkerCommandKeepsPlace(s: State, w: nat, installed: bool, c: nat)
    requires Enabled(s, WorkerCommand(w, installed))
    ensures Places(Apply(s, WorkerCommand(w, installed)), c) == Places(s, c)
  {
    var queue := s.workers[w].queue;
    if queue[0].Fd? {
      DeliveryKeepsPlace(s, w, installed, c);
    } else {
      FdsHead(queue);
      StopMovesOwnership(s, w, queue[1..], StoppedOnExit, c);
    }
  }

  // The change a step makes to the number of places of each connection: one for the newly accepted, else none.
  lemma StepKeepsPlaces(s: State, step: Step, c: nat)
    requires Enabled(s, step)
    ensures Places(Apply(s, step), c)
         == Places(s, c) + (if (step.Accept? || step.AcceptAndFailToSend?) && c == s.accepted then 1 else 0)
  {
    match step
    case Accept(w) =>
      var worker := s.workers[w];
      HoldingsUpdate(s.workers, w, worker.(queue := worker.queue + [Fd(s.accepted)]), c);
      FdsAppend(worker.queue, Fd(s.accepted));
      CountSnoc(Fds(worker.queue), s.accepted, c);
    case AcceptAndFailToSend => CountSnoc(s.closed, s.accepted, c);
    case Signal => FdsAppend(s.masterQueue, Exit);
    case MasterCommand =>
      FdsHead(s.masterQueue);
      if s.masterQueue[0].Fd? {
        var conn := s.masterQueue[0].conn;
        CountHead(Fds(s.masterQueue), c);
        OpenConnsAppend(s.masterList, Node(conn, true));
        CountSnoc(OpenConns(s.masterList), conn, c);
      } else {
        CountAppend(s.closed, OpenConns(s.masterList), c);
      }
    case MasterFails => CountAppend(s.closed, OpenConns(s.masterList), c);
    case SendExit(delivered) =>
      var worker := s.workers[s.master.k];
      HoldingsUpdate(s.workers, s.master.k, worker.(queue := worker.queue + [Exit]), c);
      FdsAppend(worker.queue, Exit);
    case WorkerCommand(w, installed) => WorkerCommandKeepsPlace(s, w, installed, c);
    case CloseConnection(w, i) =>
      var worker := s.workers[w];
      HoldingsUpdate(s.workers, w, worker.(list := worker.list[i := worker.list[i].(open := false)]), c);
      OpenConnsClose(worker.list, i, c);
      CountSnoc(s.closed, worker.list[i].conn, c);
    case Sweep(w) =>
      HoldingsUpdate(s.workers, w, s.workers[w].(list := OpenNodes(s.workers[w].list)), c);
      OpenConnsSweep(s.workers[w].list);
    case WorkerFails(w) => StopMovesOwnership(s, w, s.workers[w].queue, StoppedOnError, c);
    case _ =>
  }

  // ---------- shutdown ----------

  // An exit command is the last one in its queue, and the master is waiting for that very worker.
  predicate ExitsLast(s: State) {
    forall w, i :: 0 <= w < |s.workers| && 0 <= i < |s.workers[w].queue| && s.workers[w].queue[i] == Exit ==>
      i == |s.workers[w].queue| - 1 && s.master == Waiting(w)
  }

  // How many workers the master knows to be stopped.
  function Reaped(s: State): nat {
    match s.master
    case Serving => 0
    case Closing(k) => k
    case Waiting(k) => k
    case Done => |s.workers|
  }

  predicate StoppedOwnNothing(s: State) {
    forall w :: 0 <= w < |s.workers| && s.workers[w].phase != Running ==>
      s.workers[w].queue == [] && s.workers[w].list == []
  }

  ghost predicate ShutdownInv(s: State) {
    && s.masterList == [] && (forall i :: 0 <= i < |s.masterQueue| ==> s.masterQueue[i] == Exit)
    && ExitsLast(s) && StoppedOwnNothing(s)
    && Reaped(s) <= |s.workers| && (s.master.Waiting? ==> s.master.k < |s.workers|)
    && (forall w :: 0 <= w < Reaped(s) ==> s.workers[w].phase != Running)
    && (s.undelivered != [] ==> SomeFailed(s))
  }

  ghost predicate SomeFailed(s: State) { exists w :: 0 <= w < |s.workers| && s.workers[w].phase == StoppedOnError }

  lemma FailuresStay(s: State, t: State)
    requires SomeFailed(s) && |t.workers| == |s.workers|
    requires forall w :: 0 <= w < |s.workers| && s.workers[w].phase == StoppedOnError ==>
               t.workers[w].phase == StoppedOnError
    ensures SomeFailed(t)
  {
    var w :| 0 <= w < |s.workers| && s.workers[w].phase == StoppedOnError;
    assert t.workers[w].phase == StoppedOnError;
  }

  lemma WorkerCommandKeepsShutdown(s: State, w: nat, installed: bool)
    requires ShutdownInv(s) && Enabled(s, WorkerCommand(w, installed))
    ensures ShutdownInv(Apply(s, WorkerCommand(w, installed)))
  {
    var t, queue := Apply(s, WorkerCommand(w, installed)), s.workers[w].queue;
    if s.undelivered != [] {
      FailuresStay(s, t);
    }
    assert forall i :: 0 <= i < |queue| - 1 ==> queue[1..][i] == queue[i + 1];
    assert queue[0] == Exit ==> queue[1..] == [];
  }

  // The steps that touch one worker, and those that only touch the master.
  predicate TouchesWorker(step: Step) { step.Accept? || step.CloseConnection? || step.Sweep? || step.WorkerFails? }

  lemma WorkerStepKeepsShutdown(s: State, step: Step)
    requires ShutdownInv(s) && Enabled(s, step) && TouchesWorker(step)
    ensures ShutdownInv(Apply(s, step))
  {
    var t := Apply(s, step);
    if s.undelivered != [] {
      FailuresStay(s, t);
    }
    if step.WorkerFails? {
      assert t.workers[step.w].phase == StoppedOnError;
    }
  }

  lemma MasterStepKeepsShutdown(s: State, step: Step)
    requires ShutdownInv(s) && Enabled(s, step) && !step.WorkerCommand? && !TouchesWorker(step)
    ensures ShutdownInv(Apply(s, step))
  {
    if s.undelivered != [] {
      FailuresStay(s, Apply(s, step));
    }
  }

  lemma StepKeepsBoth(s: State, step: Step)
    requires OnePlaceEach(s) && ShutdownInv(s)
    ensures OnePlaceEach(Next(s, step)) && ShutdownInv(Next(s, step))
  {
    if Enabled(s, step) {
      if step.WorkerCommand? {
        WorkerCommandKeepsShutdown(s, step.w, step.installed);
      } else if TouchesWorker(step) {
        WorkerStepKeepsShutdown(s, step);
      } else {
        MasterStepKeepsShutdown(s, step);
      }
      StepKeepsOnePlace(s, step);
    }
  }

  lemma StepKeepsOnePlace(s: State, step: Step)
    requires OnePlaceEach(s) && Enabled(s, step)
    ensures OnePlaceEach(Apply(s, step))
  {
    forall c: nat
      ensures Places(Apply(s, step), c) == if c < Apply(s, step).accepted then 1 else 0
    {
      StepKeepsPlaces(s, step, c);
    }
  }

  /** In every run, whichever workers the master picks and whatever fails: each accepted connection is in exactly
      one place, and the shutdown invariant holds. */
  lemma {:induction false} EveryRunOwns(workers: nat, steps: seq<Step>)
    ensures OnePlaceEach(Exec(workers, steps)) && ShutdownInv(Exec(workers, steps))
  {
    if steps == [] {
      forall c: nat
        ensures Places(Start(workers), c) == 0
      {
        StoppedHoldNothing(Start(workers).workers, c);
      }
    } else {
      EveryRunOwns(workers, steps[..|steps| - 1]);
      StepKeepsBoth(Exec(workers, steps[..|steps| - 1]), steps[|steps| - 1]);
    }
  }

  lemma {:induction false} StoppedHoldNothing(workers: seq<Worker>, c: nat)
    requires forall w :: 0 <= w < |workers| ==> workers[w].queue == [] && workers[w].list == []
    ensures Sum(Holdings(workers, c)) == 0
  {
    if workers != [] {
      StoppedHoldNothing(workers[..|workers| - 1], c);
      assert Holdings(workers, c)[..|workers| - 1] == Holdings(workers[..|workers| - 1], c);
    }
  }

  /** A worker about to read its exit command has nothing else in its queue: no connection is left undelivered. */
  lemma ExitFindsNothingUndelivered(workers: nat, steps: seq<Step>, w: nat)
    requires var s := Exec(workers, steps);
             w < |s.workers| && s.workers[w].queue != [] && s.workers[w].queue[0] == Exit
    ensures Exec(workers, steps).workers[w].queue == [Exit]
  {
    EveryRunOwns(workers, steps);
  }

  /** When the master is done, every worker has stopped and every connection it ever accepted has been closed,
      exactly once; none of them while undelivered, unless some worker's select had failed. */
  lemma MasterDoneMeansAllClosed(workers: nat, steps: seq<Step>)
    requires Exec(workers, steps).master == Done
    ensures var s := Exec(workers, steps);
            && (forall w :: 0 <= w < |s.workers| ==> s.workers[w].phase != Running)
            && (forall c: nat :: Count(s.closed, c) == if c < s.accepted then 1 else 0)
            && (s.undelivered != [] ==> SomeFailed(s))
  {
    EveryRunOwns(workers, steps);
    var s := Exec(workers, steps);
    forall c: nat
      ensures Count(s.closed, c) == if c < s.accepted then 1 else 0
    {
      StoppedHoldNothing(s.workers, c);
      NoFdsInExits(s.masterQueue);
      assert Places(s, c) == Count(s.closed, c);
    }
  }

  lemma {:induction false} NoFdsInExits(queue: seq<Command>)
    requires forall i :: 0 <= i < |queue| ==> queue[i] == Exit
    ensures Fds(queue) == []
  {
    if queue != [] {
      NoFdsInExits(queue[..|queue| - 1]);
    }
  }

  // ---------- the shutdown ends ----------

  // What the processes do on their own once the master leaves its loop: every message arrives, nothing fails.
  predicate Internal(step: Step) {
    step == SendExit(true) || step == WaitPid || step == Finish || (step.WorkerCommand? && step.installed)
  }

  predicate AllInternal(steps: seq<Step>) { forall i :: 0 <= i < |steps| ==> Internal(steps[i]) }

  // The worker the master waits for has stopped or will read its exit command.
  predicate ExitOnItsWay(s: State) {
    s.master.Waiting? && Runs(s, s.master.k) ==> Exit in s.workers[s.master.k].queue
  }

  function QueueLengths(workers: seq<Worker>): seq<int> {
    seq(|workers|, w requires 0 <= w < |workers| => |workers[w].queue|)
  }

  // What is left to do: the commands to read, and the master's calls, each exit command counted twice.
  function ShutdownWork(s: State): int {
    Sum(QueueLengths(s.workers))
    + match s.master
      case Serving => 0
      case Closing(k) => 3 * (|s.workers| - k) + 1
      case Waiting(k) => 3 * (|s.workers| - k) - 1
      case Done => 0
  }

  lemma {:induction false} QueueLengthsUpdate(workers: seq<Worker>, w: nat, worker: Worker)
    requires w < |workers|
    ensures Sum(QueueLengths(workers[w := worker]))
         == Sum(QueueLengths(workers)) - |workers[w].queue| + |worker.queue|
  {
    assert QueueLengths(workers[w := worker]) == QueueLengths(workers)[w := |worker.queue|];
    SumUpdate(QueueLengths(workers), w, |worker.queue|);
  }

  lemma {:induction false} WorkIsBounded(s: State)
    requires ShutdownInv(s)
    ensures ShutdownWork(s) >= 0
  {
    SumOfLengths(s.workers);
  }

  lemma {:induction false} SumOfLengths(workers: seq<Worker>)
    ensures Sum(QueueLengths(workers)) >= 0
  {
    if workers != [] {
      var front := workers[..|workers| - 1];
      assert QueueLengths(workers)[..|front|] == QueueLengths(front);
      SumOfLengths(front);
    }
  }

  lemma InternalStepWorks(s: State, step: Step)
    requires ShutdownInv(s) && s.master != Serving && Enabled(s, step) && Internal(step)
    ensures ShutdownWork(Apply(s, step)) < ShutdownWork(s)
    ensures Apply(s, step).master != Serving
    ensures ExitOnItsWay(s) ==> ExitOnItsWay(Apply(s, step))
  {
    match step
    case SendExit(_) =>
      var worker := s.workers[s.master.k];
      QueueLengthsUpdate(s.workers, s.master.k, worker.(queue := worker.queue + [Exit]));
    case WorkerCommand(w, _) =>
      QueueLengthsUpdate(s.workers, w, Apply(s, step).workers[w]);
      assert s.workers[w].queue[0] != Exit && Exit in s.workers[w].queue ==> Exit in s.workers[w].queue[1..];
    case _ =>
  }

  // The step the shutdown is waiting for.
  function Onward(s: State): Step {
    match s.master
    case Closing(k) => if k < |s.workers| then SendExit(true) else Finish
    case Waiting(k) => if Runs(s, k) then WorkerCommand(k, true) else WaitPid
    case _ => Finish
  }

  /** Once the master has left its loop, every step of the shutdown does part of the remaining work; and as long as
      no exit command was lost, one is enabled until the master is done: so every schedule ends there. */
  lemma ShutdownGetsDone(workers: nat, steps: seq<Step>)
    requires Exec(workers, steps).master != Serving
    ensures var s := Exec(workers, steps);
            && (forall step :: Enabled(s, step) && Internal(step) ==>
                  0 <= ShutdownWork(Apply(s, step)) < ShutdownWork(s)
                  && (ExitOnItsWay(s) ==> ExitOnItsWay(Apply(s, step))))
            && (ExitOnItsWay(s) ==> (s.master == Done <==> forall step :: Enabled(s, step) ==> !Internal(step)))
  {
    var s := Exec(workers, steps);
    EveryRunOwns(workers, steps);
    forall step | Enabled(s, step) && Internal(step)
      ensures 0 <= ShutdownWork(Apply(s, step)) < ShutdownWork(s)
      ensures ExitOnItsWay(s) ==> ExitOnItsWay(Apply(s, step))
    {
      StepKeepsBoth(s, step);
      InternalStepWorks(s, step);
      WorkIsBounded(Apply(s, step));
    }
    if ExitOnItsWay(s) && s.master != Done {
      assert Enabled(s, Onward(s)) && Internal(Onward(s));
    }
  }

  lemma {:induction false} ExecSnoc(workers: nat, steps: seq<Step>, step: Step)
    ensures Exec(workers, steps + [step]) == Next(Exec(workers, steps), step)
  {
    assert (steps + [step])[..|steps|] == steps;
  }

  lemma ShutdownStep(workers: nat, steps: seq<Step>) returns (step: Step)
    requires var s := Exec(workers, steps); s.master != Serving && s.master != Done && ExitOnItsWay(s)
    ensures Internal(step)
    ensures var s, t := Exec(workers, steps), Exec(workers, steps + [step]);
            t.master != Serving && ExitOnItsWay(t) && 0 <= ShutdownWork(t) < ShutdownWork(s)
  {
    var s := Exec(workers, steps);
    EveryRunOwns(workers, steps);
    step := Onward(s);
    StepKeepsBoth(s, step);
    InternalStepWorks(s, step);
    WorkIsBounded(Apply(s, step));
    ExecSnoc(workers, steps, step);
  }

  lemma {:induction false} ShutdownCompletes(workers: nat, steps: seq<Step>) returns (more: seq<Step>)
    requires Exec(workers, steps).master != Serving && ExitOnItsWay(Exec(workers, steps))
    ensures AllInternal(more)
    ensures Exec(workers, steps + more).master == Done
    decreases ShutdownWork(Exec(workers, steps))
  {
    if Exec(workers, steps).master == Done {
      more := [];
      assert steps + more == steps;
    } else {
      var step := ShutdownStep(workers, steps);
      var rest := ShutdownCompletes(workers, steps + [step]);
      more := [step] + rest;
      Regroup(steps, [step], rest);
    }
  }

  /** A signal shuts a serving server down: the master leaves its loop for the exit command the handler sends it, and
      the shutdown can go on to its end. */
  lemma SignalShutsDown(workers: nat, steps: seq<Step>) returns (more: seq<Step>)
    requires Exec(workers, steps).master == Serving
    ensures AllInternal(more)
    ensures Exec(workers, steps + [Signal, MasterCommand]).master == Closing(0)
    ensures Exec(workers, steps + [Signal, MasterCommand] + more).master == Done
  {
    EveryRunOwns(workers, steps + [Signal]);
    ExecSnoc(workers, steps, Signal);
    ExecSnoc(workers, steps + [Signal], MasterCommand);
    assert (steps + [Signal]) + [MasterCommand] == steps + [Signal, MasterCommand];
    more := ShutdownCompletes(workers, steps + [Signal, MasterCommand]);
  }

  // The master waits for worker k, which runs and has no exit command to read.
  predicate Hangs(s: State, k: nat) { s.master == Waiting(k) && !ExitOnItsWay(s) }

  /** A lost exit command: unless that worker fails by itself, the master waits for it forever. */
  lemma {:induction false} LostExitHangs(workers: nat, steps: seq<Step>, more: seq<Step>, k: nat)
    requires Hangs(Exec(workers, steps), k) && WorkerFails(k) !in more
    ensures Hangs(Exec(workers, steps + more), k)
  {
    if more == [] {
      assert steps + more == steps;
    } else {
      var front, step := more[..|more| - 1], more[|more| - 1];
      assert more == front + [step] && step in more && forall x :: x in front ==> x in more;
      LostExitHangs(workers, steps, front, k);
      Regroup(steps, front, [step]);
      ExecSnoc(workers, steps + front, step);
      HangStays(Exec(workers, steps + front), step, k);
    }
  }

  lemma HangStays(s: State, step: Step, k: nat)
    requires Hangs(s, k) && step != WorkerFails(k)
    ensures Hangs(Next(s, step), k)
  {
    if step.Accept? || step.WorkerCommand? {
      assert Exit !in s.workers[k].queue;
    }
  }

  /** The run in which it happens: one worker, and the exit command that is sent to it does not arrive. */
  lemma LostExitRun()
    ensures Hangs(Exec(1, [MasterFails, SendExit(false)]), 0)
  {
    var first, second := [MasterFails], [MasterFails, SendExit(false)];
    assert [] + first == first && first + [SendExit(false)] == second;
    ExecSnoc(1, [], MasterFails);
    var s := Exec(1, first);
    assert s.master == Closing(0) && |s.workers| == 1 && s.workers[0] == Worker([], [], Running);
    ExecSnoc(1, first, SendExit(false));
  }

  // A server of one worker that has accepted one connection or none.
  function One(master: Master, masterQueue: seq<Command>, worker: Worker, accepted: nat, closed: seq<nat>): State {
    State(master, masterQueue, [], [worker], accepted, closed, [])
  }

  lemma ServiceSteps()
    ensures Next(Start(1), Accept(0)) == One(Serving, [], Worker([Fd(0)], [], Running), 1, [])
    ensures Next(One(Serving, [], Worker([Fd(0)], [], Running), 1, []), WorkerCommand(0, true))
         == One(Serving, [], Worker([], [Node(0, true)], Running), 1, [])
  {
    assert Start(1).workers == [Worker([], [], Running)] && [] + [Fd(0)] == [Fd(0)];
    assert [Fd(0)][1..] == [] && [] + [Node(0, true)] == [Node(0, true)];
  }

  lemma EndSteps()
    ensures Next(One(Serving, [], Worker([], [Node(0, true)], Running), 1, []), CloseConnection(0, 0))
         == One(Serving, [], Worker([], [Node(0, false)], Running), 1, [0])
    ensures Next(One(Serving, [], Worker([], [Node(0, false)], Running), 1, [0]), Sweep(0))
         == One(Serving, [], Worker([], [], Running), 1, [0])
  {
    assert [Node(0, true)][0 := Node(0, false)] == [Node(0, false)] && [] + [0] == [0];
    assert OpenNodes([Node(0, false)]) == OpenNodes([Node(0, false)][..0]) + [] == [];
  }

  lemma ShutdownSteps()
    ensures Next(One(Serving, [], Worker([], [], Running), 1, [0]), Signal)
         == One(Serving, [Exit], Worker([], [], Running), 1, [0])
    ensures Next(One(Serving, [Exit], Worker([], [], Running), 1, [0]), MasterCommand)
         == One(Closing(0), [], Worker([], [], Running), 1, [0])
    ensures Next(One(Closing(0), [], Worker([], [], Running), 1, [0]), SendExit(true))
         == One(Waiting(0), [], Worker([Exit], [], Running), 1, [0])
    ensures Next(One(Waiting(0), [], Worker([Exit], [], Running), 1, [0]), WorkerCommand(0, true))
         == One(Waiting(0), [], Worker([], [], StoppedOnExit), 1, [0])
    ensures Next(One(Waiting(0), [], Worker([], [], StoppedOnExit), 1, [0]), WaitPid)
         == One(Closing(1), [], Worker([], [], StoppedOnExit), 1, [0])
    ensures Next(One(Closing(1), [], Worker([], [], StoppedOnExit), 1, [0]), Finish)
         == One(Done, [], Worker([], [], StoppedOnExit), 1, [0])
  {
    assert [] + [Exit] == [Exit] && [Exit][1..] == [];
    assert OpenConns([]) == [] && Fds([]) == [] && [0] + [] == [0];
  }

  /** A connection's whole life in a server of one worker: accepted and passed on, received, closed and swept; and then
      a signal, the exit command read by the master and by the worker, and the end. */
  lemma OneConnectionRun()
    ensures Exec(1, [Accept(0), WorkerCommand(0, true), CloseConnection(0, 0), Sweep(0), Signal, MasterCommand,
                     SendExit(true), WorkerCommand(0, true), WaitPid, Finish])
         == State(Done, [], [], [Worker([], [], StoppedOnExit)], 1, [0], [])
  {
    ServedRun();
    ShutdownSteps();
    var served := [Accept(0), WorkerCommand(0, true), CloseConnection(0, 0), Sweep(0)];
    var left, told, over := [Signal, MasterCommand], [SendExit(true), WorkerCommand(0, true)], [WaitPid, Finish];
    ExecTwo(1, served, Signal, MasterCommand);
    ExecTwo(1, served + left, SendExit(true), WorkerCommand(0, true));
    ExecTwo(1, served + left + told, WaitPid, Finish);
    assert served + left + told + over
        == [Accept(0), WorkerCommand(0, true), CloseConnection(0, 0), Sweep(0), Signal, MasterCommand,
            SendExit(true), WorkerCommand(0, true), WaitPid, Finish];
  }

  lemma ServedRun()
    ensures Exec(1, [Accept(0), WorkerCommand(0, true), CloseConnection(0, 0), Sweep(0)])
         == One(Serving, [], Worker([], [], Running), 1, [0])
  {
    ServiceSteps();
    EndSteps();
    var first := [Accept(0), WorkerCommand(0, true)];
    ExecTwo(1, [], Accept(0), WorkerCommand(0, true));
    ExecTwo(1, first, CloseConnection(0, 0), Sweep(0));
    assert [] + first == first;
    assert first + [CloseConnection(0, 0), Sweep(0)]
        == [Accept(0), WorkerCommand(0, true), CloseConnection(0, 0), Sweep(0)];
  }

  lemma {:induction false} ExecTwo(workers: nat, steps: seq<Step>, first: Step, second: Step)
    ensures Exec(workers, steps + [first, second]) == Next(Next(Exec(workers, steps), first), second)
  {
    ExecSnoc(workers, steps, first);
    ExecSnoc(workers, steps + [first], second);
    assert (steps + [first]) + [second] == steps + [first, second];
  }

  /** The shutdown can still complete on its own exactly when no exit command was lost. */
  lemma ShutdownCompletesExactlyWhen(workers: nat, steps: seq<Step>)
    requires Exec(workers, steps).master != Serving
    ensures (exists more :: AllInternal(more) && Exec(workers, steps + more).master == Done)
            <==> ExitOnItsWay(Exec(workers, steps))
  {
    var s := Exec(workers, steps);
    if ExitOnItsWay(s) {
      var more := ShutdownCompletes(workers, steps);
    } else {
      forall more | AllInternal(more)
        ensures Exec(workers, steps + more).master != Done
      {
        LostExitHangs(workers, steps, more, s.master.k);
      }
    }
  }

  // ---------- the top of the worker loop ----------

  const CLOSED := -1

  // One node of the list as the loop sees it: fd is CLOSED after the connection was closed.
  datatype Conn = Conn(fd: int, wantsRead: bool, wantsWrite: bool)

  function Swept(list: seq<Conn>): seq<Conn> { Except(list, (c: Conn) => c.fd == CLOSED) }

  // The descriptors of a list that want to be in the read set, or in the write set.
  function Wanting(list: seq<Conn>, reading: bool): set<int> {
    set c | c in list && (if reading then c.wantsRead else c.wantsWrite) :: c.fd
  }

  lemma WantingSnoc(list: seq<Conn>, c: Conn, reading: bool)
    ensures Wanting(list + [c], reading)
         == Wanting(list, reading) + (if (if reading then c.wantsRead else c.wantsWrite) then {c.fd} else {})
  {
    assert forall x :: x in list + [c] <==> x in list || x == c;
  }

  // The sets and their bound, once the nodes `kept` are in them besides the descriptors of the worker's own.
  predicate Holds(kept: seq<Conn>, own: set<int>, readfds: set<int>, writefds: set<int>, maxFd: int) {
    && readfds == own + Wanting(kept, true) && writefds == Wanting(kept, false)
    && (forall fd :: fd in own ==> CLOSED < fd <= maxFd)
    && (forall c :: c in kept ==> CLOSED < c.fd <= maxFd)
    && (maxFd in own || exists c :: c in kept && c.fd == maxFd)
  }

  lemma HoldsSnoc(kept: seq<Conn>, c: Conn, own: set<int>, readfds: set<int>, writefds: set<int>, maxFd: int)
    requires Holds(kept, own, readfds, writefds, maxFd) && c.fd > CLOSED
    ensures Holds(kept + [c], own, readfds + (if c.wantsRead then {c.fd} else {}),
                  writefds + (if c.wantsWrite then {c.fd} else {}), if maxFd < c.fd then c.fd else maxFd)
  {
    WantingSnoc(kept, c, true);
    WantingSnoc(kept, c, false);
  }

  lemma HoldsMeans(kept: seq<Conn>, own: set<int>, readfds: set<int>, writefds: set<int>, maxFd: int)
    requires Holds(kept, own, readfds, writefds, maxFd)
    ensures forall fd :: fd in readfds <==> fd in own || exists c :: c in kept && c.wantsRead && c.fd == fd
    ensures forall fd :: fd in writefds <==> exists c :: c in kept && c.wantsWrite && c.fd == fd
    ensures forall fd :: fd in readfds + writefds ==> -1 < fd <= maxFd
  {
  }

  /** What select is called with. */
  class SelectSets {
    var list: seq<Conn>
    var readfds: set<int>
    var writefds: set<int>
    var maxFd: int

    constructor (list: seq<Conn>)
      ensures this.list == list
    {
      this.list, readfds, writefds, maxFd := list, {}, {}, -1;
    }

    /** Exactly the closed nodes leave the list, at says where the others were; the sets hold exactly the descriptors
        left that want the event, the command socket and, in the master, the listening socket (listenFd is -1 in a
        worker). No closed descriptor is in a set, and maxFd is the greatest of all. */
    method Prepare(notifyFd: int, listenFd: int) returns (ghost at: seq<nat>)
      requires notifyFd >= 0 && listenFd >= CLOSED && forall i :: 0 <= i < |list| ==> list[i].fd >= CLOSED
      modifies this
      ensures IsSubsequence(list, old(list), at)
      ensures forall k :: 0 <= k < |old(list)| ==> (k in at <==> old(list)[k].fd != -1)
      ensures forall fd :: fd in readfds <==>
                fd == notifyFd || (fd == listenFd && fd != -1) || exists c :: c in list && c.wantsRead && c.fd == fd
      ensures forall fd :: fd in writefds <==> exists c :: c in list && c.wantsWrite && c.fd == fd
      ensures forall fd :: fd in readfds + writefds ==> -1 < fd <= maxFd
      ensures maxFd == notifyFd || maxFd == listenFd || exists c :: c in list && c.fd == maxFd
    {
      readfds, writefds := {notifyFd}, {};
      maxFd := notifyFd;
      if listenFd != CLOSED {
        readfds := readfds + {listenFd};
        if listenFd > maxFd {
          maxFd := listenFd;
        }
      }
      ghost var own := {notifyFd, listenFd} - {CLOSED};
      SweepInto(own);
      HoldsMeans(list, own, readfds, writefds, maxFd);
      at := ExceptKeepsOrder(old(list), (c: Conn) => c.fd == CLOSED);
    }

    // The loop over the list.
    method SweepInto(ghost own: set<int>)
      requires Holds([], own, readfds, writefds, maxFd) && forall i :: 0 <= i < |list| ==> list[i].fd >= CLOSED
      modifies this
      ensures list == Swept(old(list)) && Holds(list, own, readfds, writefds, maxFd)
    {
      var rest, kept := list, [];
      ghost var seen := 0;
      while rest != []
        invariant seen <= |old(list)| && rest == old(list)[seen..] && kept == Swept(old(list)[..seen])
        invariant Holds(kept, own, readfds, writefds, maxFd)
        decreases |rest|
      {
        ExceptStep(old(list), (c: Conn) => c.fd == CLOSED, seen);
        var c := rest[0];
        if c.fd != CLOSED {
          Add(c, kept, own);
          kept := kept + [c];
        }
        rest := rest[1..];
        seen := seen + 1;
      }
      assert old(list)[..seen] == old(list);
      list := kept;
    }

    // An open node enters the sets for the events it wants.
    method Add(c: Conn, ghost kept: seq<Conn>, ghost own: set<int>)
      requires Holds(kept, own, readfds, writefds, maxFd) && c.fd > CLOSED
      modifies this`readfds, this`writefds, this`maxFd
      ensures Holds(kept + [c], own, readfds, writefds, maxFd)
    {
      HoldsSnoc(kept, c, own, readfds, writefds, maxFd);
      if c.wantsRead {
        readfds := readfds + {c.fd};
      }
      if c.wantsWrite {
        writefds := writefds + {c.fd};
      }
      if maxFd < c.fd {
        maxFd := c.fd;
      }
    }
  }
}
