/** The signal-driven UDP server of 04-24_UNIX异步IO机制/sigio_udp_server.c: the kernel, the SIGIO handler and
    the main loop as interleaved steps. The handler preempts the main loop whenever SIGIO is pending and
    not blocked; the two share the connection list with no other protection. */
module SigioServer {
  import opened Sequences

  type Datagram = nat

  /** Where the main loop is. Setup: O_ASYNC is set, SIGIO not blocked yet. Check: about to test the list.
      Suspended: in sigsuspend, SIGIO unblocked. Draining: at the head of the answering loop.
      Unlinking: it has answered the first node and saved that node's successor. */
  datatype Main = Setup | Check | Suspended | Draining | Unlinking(successors: seq<Datagram>)

  // Where the handler is: not running, about to call recvfrom, or about to append what it received.
  datatype Handler = Idle | Receiving | Holding(d: Datagram)

  datatype State = State(main: Main, handler: Handler, pending: bool,
                         socket: seq<Datagram>, list: seq<Datagram>,
                         answered: seq<Datagram>, arrived: seq<Datagram>)

  datatype Step =
    | Arrive(d: Datagram)  // a datagram reaches the socket and raises SIGIO
    | Deliver              // the handler starts
    | Receive              // recvfrom in the handler; -1 means drained, and the handler returns
    | Append               // add_nwc_tail in the handler
    | Block                // sigprocmask in the main function
    | Test                 // the list test, and sigsuspend when it is empty
    | Answer               // sendto to the first node, or the end of the answering loop
    | Unlink               // the node is unlinked and freed

  // Right after F_SETFL: unread holds the datagrams that came before SIGIO was raised for them.
  function Start(unread: seq<Datagram>): State {
    State(Setup, Idle, false, unread, [], [], unread)
  }

  predicate Unblocked(s: State) { s.main == Setup || s.main == Suspended }

  predicate Enabled(s: State, step: Step) {
    match step
    case Arrive(_) => true
    case Deliver => s.pending && s.handler == Idle && Unblocked(s)
    case Receive => s.handler == Receiving
    case Append => s.handler.Holding?
    // The main loop does not run while the handler does.
    case Block => s.handler == Idle && s.main == Setup
    case Test => s.handler == Idle && s.main == Check
    case Answer => s.handler == Idle && s.main == Draining
    case Unlink => s.handler == Idle && s.main.Unlinking?
  }

  function Apply(s: State, step: Step): State
    requires Enabled(s, step)
  {
    match step
    case Arrive(d) => s.(socket := s.socket + [d], arrived := s.arrived + [d], pending := true)
    case Deliver => s.(pending := false, handler := Receiving)
    case Receive =>
      if s.socket != [] then s.(handler := Holding(s.socket[0]), socket := s.socket[1..])
      else s.(handler := Idle, main := if s.main == Suspended then Draining else s.main)
    case Append => s.(list := s.list + [s.handler.d], handler := Receiving)
    case Block => s.(main := Check)
    case Test => s.(main := if s.list == [] then Suspended else Draining)
    case Answer =>
      if s.list == [] then s.(main := Check)
      else s.(answered := s.answered + [s.list[0]], main := Unlinking(s.list[1..]))
    case Unlink => s.(list := s.main.successors, main := Draining)
  }

  function Next(s: State, step: Step): State { if Enabled(s, step) then Apply(s, step) else s }

  // Every list of steps is a run: a step that is not enabled changes nothing.
  function Exec(s: State, steps: seq<Step>): State {
    if steps == [] then s else Next(Exec(s, steps[..|steps| - 1]), steps[|steps| - 1])
  }

  // ---------- safety ----------

  // The listed datagrams that are not answered yet.
  function Unanswered(s: State): seq<Datagram> { if s.main.Unlinking? then s.main.successors else s.list }

  function Held(s: State): seq<Datagram> { if s.handler.Holding? then [s.handler.d] else [] }

  /** Every datagram that arrived is in exactly one place, in the order of arrival. */
  predicate ExactlyOnce(s: State) {
    s.answered + Unanswered(s) + Held(s) + s.socket == s.arrived
  }

  /** The handler never runs while the main loop tests, walks or unlinks. */
  predicate Exclusion(s: State) {
    && (s.handler != Idle ==> Unblocked(s))
    && (s.main.Unlinking? ==> s.list != [] && s.main.successors == s.list[1..])
    && (s.main == Suspended && s.handler == Idle ==> s.list == [])
  }

  /** Unread data always has a signal pending or a handler at work, unless it was there from the start. */
  predicate NoLostWakeup(s: State) { s.socket != [] ==> s.pending || s.handler != Idle }

  lemma StepKeepsExclusion(s: State, step: Step)
    requires Exclusion(s)
    ensures Exclusion(Next(s, step))
  {
  }

  lemma ArriveKeepsOrder(s: State, d: Datagram)
    requires ExactlyOnce(s)
    ensures ExactlyOnce(Apply(s, Arrive(d)))
  {
    Regroup(s.answered + Unanswered(s) + Held(s), s.socket, [d]);
  }

  lemma ReceiveKeepsOrder(s: State)
    requires ExactlyOnce(s) && s.handler == Receiving
    ensures ExactlyOnce(Apply(s, Receive))
  {
    if s.socket != [] {
      var listed, first := s.answered + Unanswered(s), [s.socket[0]];
      assert s.socket == first + s.socket[1..];
      Regroup(listed, first, s.socket[1..]);
      assert listed + [] == listed;
    }
  }

  lemma AppendKeepsOrder(s: State)
    requires ExactlyOnce(s) && s.handler.Holding? && !s.main.Unlinking?
    ensures ExactlyOnce(Apply(s, Append))
  {
    Regroup(s.answered, s.list, [s.handler.d]);
    assert s.answered + (s.list + [s.handler.d]) + [] == s.answered + (s.list + [s.handler.d]);
  }

  lemma AnswerKeepsOrder(s: State)
    requires ExactlyOnce(s) && s.handler == Idle && s.main == Draining
    ensures ExactlyOnce(Apply(s, Answer))
  {
    if s.list != [] {
      var first := [s.list[0]];
      assert s.list == first + s.list[1..];
      Regroup(s.answered, first, s.list[1..]);
    }
  }

  lemma StepKeepsOrder(s: State, step: Step)
    requires ExactlyOnce(s) && Exclusion(s) && Enabled(s, step)
    ensures ExactlyOnce(Apply(s, step))
  {
    match step
    case Arrive(d) => ArriveKeepsOrder(s, d);
    case Receive => ReceiveKeepsOrder(s);
    case Append => AppendKeepsOrder(s);
    case Answer => AnswerKeepsOrder(s);
    case _ =>
  }

  /** In every run, from any contents of the socket: exactly once, in order, and exclusion. */
  lemma {:induction false} EveryRunIsOrdered(unread: seq<Datagram>, steps: seq<Step>)
    ensures ExactlyOnce(Exec(Start(unread), steps)) && Exclusion(Exec(Start(unread), steps))
  {
    if steps != [] {
      var before, step := Exec(Start(unread), steps[..|steps| - 1]), steps[|steps| - 1];
      EveryRunIsOrdered(unread, steps[..|steps| - 1]);
      StepKeepsExclusion(before, step);
      if Enabled(before, step) {
        StepKeepsOrder(before, step);
      }
    } else {
      assert [] + [] + [] + unread == unread;
    }
  }

  // The datagrams that arrive in a run, which nothing can keep out.
  function Arrivals(steps: seq<Step>): seq<Datagram> {
    if steps == [] then []
    else
      var last := steps[|steps| - 1];
      Arrivals(steps[..|steps| - 1]) + (if last.Arrive? then [last.d] else [])
  }

  lemma {:induction false} EveryArrivalCounts(unread: seq<Datagram>, steps: seq<Step>)
    ensures Exec(Start(unread), steps).arrived == unread + Arrivals(steps)
  {
    if steps == [] {
      assert unread + [] == unread;
    } else {
      EveryArrivalCounts(unread, steps[..|steps| - 1]);
    }
  }

  lemma {:induction false} EveryRunWakes(steps: seq<Step>)
    ensures NoLostWakeup(Exec(Start([]), steps))
  {
    if steps != [] {
      EveryRunWakes(steps[..|steps| - 1]);
    }
  }

  // ---------- the stuck state ----------

  // Asleep with nothing on the way to wake it, and datagrams unread.
  predicate Stuck(s: State) { s.main == Suspended && s.handler == Idle && !s.pending && s.socket != [] }

  /** The server can fall asleep on unread datagrams exactly when some were in the socket before SIGIO was enabled. */
  lemma StuckExactlyWhenUnreadAtStart(unread: seq<Datagram>)
    ensures (exists steps :: Stuck(Exec(Start(unread), steps))) <==> unread != []
  {
    if unread == [] {
      forall steps
        ensures !Stuck(Exec(Start(unread), steps))
      {
        EveryRunWakes(steps);
      }
    } else {
      var asleep := [Block, Test];
      assert asleep[..1] == [Block] && [Block][..0] == [];
      assert Exec(Start(unread), []) == Start(unread);
      assert Exec(Start(unread), [Block]) == Next(Start(unread), Block);
      assert Stuck(Exec(Start(unread), asleep));
    }
  }

  // ---------- progress ----------

  // Asleep with no signal pending: nothing can happen before the next datagram arrives.
  predicate Quiet(s: State) { s.main == Suspended && s.handler == Idle && !s.pending }

  /** When the server is quiet, every datagram that arrived has been answered, in the order of arrival. */
  lemma QuietMeansAllAnswered(steps: seq<Step>)
    requires Quiet(Exec(Start([]), steps))
    ensures var s := Exec(Start([]), steps); s.answered == s.arrived
  {
    EveryRunWakes(steps);
    EveryRunIsOrdered([], steps);
    var s := Exec(Start([]), steps);
    assert s.answered + [] + [] + [] == s.answered;
  }

  // What is left to do before the server is quiet.
  function Work(s: State): nat {
    4 * |s.socket| + 2 * |Unanswered(s)|
    + (if s.pending then 4 else 0)
    + (match s.handler case Idle => 0 case Receiving => 3 case Holding(_) => 6)
    + (match s.main
       case Setup => 4
       case Check => if s.list == [] then 1 else 3
       case Suspended => 0
       case Draining => 2
       case Unlinking(_) => 3)
  }

  /** Every step but an arrival does part of the remaining work, and some step is enabled until the server is quiet:
      so without further arrivals every schedule ends, in a state where everything is answered. */
  lemma {:induction false} WorkGetsDone(s: State)
    requires Exclusion(s)
    ensures forall step :: Enabled(s, step) && !step.Arrive? ==> Work(Apply(s, step)) < Work(s)
    ensures Quiet(s) <==> forall step :: Enabled(s, step) ==> step.Arrive?
  {
    if !Quiet(s) {
      assert Enabled(s, Deliver) || Enabled(s, Receive) || Enabled(s, Append) || Enabled(s, Block)
        || Enabled(s, Test) || Enabled(s, Answer) || Enabled(s, Unlink);
    }
  }

  /** From every reachable state the server, left alone, gets to answer every datagram that arrived, in order. */
  lemma {:induction false} EverythingIsAnsweredEventually(steps: seq<Step>) returns (more: seq<Step>)
    ensures forall i :: 0 <= i < |more| ==> !more[i].Arrive?
    ensures var s := Exec(Start([]), steps + more); Quiet(s) && s.answered == Arrivals(steps)
    decreases Work(Exec(Start([]), steps))
  {
    var s := Exec(Start([]), steps);
    EveryRunIsOrdered([], steps);
    WorkGetsDone(s);
    if Quiet(s) {
      more := [];
      assert steps + more == steps;
      QuietMeansAllAnswered(steps);
      EveryArrivalCounts([], steps);
    } else {
      var step :| Enabled(s, step) && !step.Arrive?;
      assert (steps + [step])[..|steps|] == steps;
      var rest := EverythingIsAnsweredEventually(steps + [step]);
      more := [step] + rest;
      assert steps + more == (steps + [step]) + rest;
    }
  }

  // ---------- the two loops, uninterrupted ----------

  // The steps of a handler that finds n datagrams and no more, and of an answering loop over n nodes.
  function HandlerSteps(n: nat): seq<Step> {
    if n == 0 then [Receive] else [Receive, Append] + HandlerSteps(n - 1)
  }

  function AnswerSteps(n: nat): seq<Step> {
    if n == 0 then [Answer] else [Answer, Unlink] + AnswerSteps(n - 1)
  }

  lemma ExecAppend(s: State, a: seq<Step>, b: seq<Step>)
    ensures Exec(s, a + b) == Exec(Exec(s, a), b)
  {
    if b == [] {
      assert a + b == a;
    } else {
      var last := |b| - 1;
      assert (a + b)[..|a + b| - 1] == a + b[..last];
      ExecAppend(s, a, b[..last]);
    }
  }

  lemma ExecTwo(s: State, x: Step, y: Step)
    ensures Exec(s, [x, y]) == Next(Next(s, x), y) && Exec(s, [x]) == Next(s, x)
  {
    assert [x, y][..1] == [x] && [x][..0] == [];
    assert Exec(s, [x]) == Next(Exec(s, []), x);
  }

  /** The program's two loops over the shared list, on the fields they change. Each is the run of the machine
      that its steps spell out when no datagram arrives meanwhile. */
  class Loops {
    var socket: seq<Datagram>
    var list: seq<Datagram>
    var answered: seq<Datagram>

    constructor (socket: seq<Datagram>, list: seq<Datagram>, answered: seq<Datagram>)
      ensures this.socket == socket && this.list == list && this.answered == answered
    {
      this.socket, this.list, this.answered := socket, list, answered;
    }

    ghost predicate Shows(s: State)
      reads this
    {
      socket == s.socket && list == s.list && answered == s.answered
    }

    // sigio_handler
    method SigioHandler(ghost s: State)
      requires Shows(s) && s.handler == Receiving
      modifies this
      ensures Shows(Exec(s, HandlerSteps(|s.socket|))) && Exec(s, HandlerSteps(|s.socket|)).handler == Idle
      ensures socket == [] && list == old(list) + old(socket) && answered == old(answered)
    {
      ghost var t := s;
      while true
        invariant Shows(t) && t.handler == Receiving
        invariant list + socket == old(list) + old(socket) && answered == old(answered)
        invariant Exec(t, HandlerSteps(|t.socket|)) == Exec(s, HandlerSteps(|s.socket|))
        decreases |socket|
      {
        ExecTwo(t, Receive, Append);
        if socket == [] {
          return;
        }
        ExecAppend(t, [Receive, Append], HandlerSteps(|t.socket| - 1));
        t := Exec(t, [Receive, Append]);
        var d := socket[0];
        socket := socket[1..];
        list := list + [d];
      }
    }

    // The answering loop of the main function.
    method AnswerAll(ghost s: State)
      requires Shows(s) && s.handler == Idle && s.main == Draining
      modifies this
      ensures Shows(Exec(s, AnswerSteps(|s.list|))) && Exec(s, AnswerSteps(|s.list|)).main == Check
      ensures list == [] && answered == old(answered) + old(list) && socket == old(socket)
    {
      ghost var t := s;
      while list != []
        invariant Shows(t) && t.handler == Idle && t.main == Draining
        invariant answered + list == old(answered) + old(list) && socket == old(socket)
        invariant Exec(t, AnswerSteps(|t.list|)) == Exec(s, AnswerSteps(|s.list|))
        decreases |list|
      {
        ExecTwo(t, Answer, Unlink);
        ExecAppend(t, [Answer, Unlink], AnswerSteps(|t.list| - 1));
        t := Exec(t, [Answer, Unlink]);
        answered := answered + [list[0]];
        list := list[1..];
      }
      ExecTwo(t, Answer, Unlink);
    }
  }
}
