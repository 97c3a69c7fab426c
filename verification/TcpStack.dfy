/** The event loop of 04-30_nwchecker_refactor/nwc_epoll_looper.c under the TCP handler state machine of
    nwc_tcp_handler.c: handlers and epoll entries on a heap of maps, the kernel's interest set,
    and callbacks that may close any handler while a batch of events is being dispatched.
    Every epoll_ctl succeeds. Addresses are never reused. */
module TcpStack {
  import opened Sequences

  datatype TcpState = Closed | Listening | Connecting | Established

  // EM_READ and EM_WRITE, or EPOLLIN and EPOLLOUT.
  datatype Mask = Mask(read: bool, write: bool)

  const NONE := Mask(false, false)
  const INVALID := -1

  // hasOutput is false when handle_output is NULL.
  datatype Handler = Handler(state: TcpState, fd: int, entry: int, canSend: bool, hasOutput: bool)

  datatype Entry = Entry(mask: Mask, fd: int, eh: nat)

  datatype Interest = Interest(entry: nat, events: Mask)

  datatype LogItem =
    | Input(entry: nat)
    | Output(entry: nat)
    | Removed(entry: nat)
    | Freed(entry: nat)
    | OnConnect(handler: nat)
    | Sent(handler: nat)      // the connection layer sent and the kernel took bytes
    | Blocked(handler: nat)   // it sent and met EAGAIN

  datatype State = State(handlers: map<nat, Handler>, entries: map<nat, Entry>, kernel: map<int, Interest>,
                         removed: seq<nat>, nextPtr: nat, log: seq<LogItem>)

  predicate Live(s: State, e: nat) { e in s.entries && s.entries[e].fd != INVALID }

  // ---------- the invariant ----------

  /** The kernel's interest set is exactly the translated masks of the live entries. */
  ghost predicate KernelAgrees(s: State) {
    && (forall e :: Live(s, e) ==>
          s.entries[e].fd in s.kernel && s.kernel[s.entries[e].fd] == Interest(e, s.entries[e].mask))
    && (forall fd :: fd in s.kernel ==>
          fd != INVALID && Live(s, s.kernel[fd].entry) && s.entries[s.kernel[fd].entry].fd == fd)
  }

  /** A handler has a live entry exactly when it is not closed. */
  ghost predicate HandlersAgree(s: State) {
    && (forall e :: Live(s, e) ==>
          var h := s.entries[e].eh;
          && h in s.handlers && s.handlers[h].state != Closed
          && s.handlers[h].entry == e && s.handlers[h].fd == s.entries[e].fd)
    && (forall h :: h in s.handlers && s.handlers[h].state != Closed ==>
          s.handlers[h].entry >= 0 && Live(s, s.handlers[h].entry) && s.entries[s.handlers[h].entry].eh == h)
  }

  /** Every live entry waits for input, only that of a connecting handler waits for writability,
      and only a listener lacks handle_output. */
  ghost predicate MasksFitStates(s: State) {
    && (forall e :: Live(s, e) ==> s.entries[e].mask.read)
    && (forall e :: Live(s, e) && s.entries[e].eh in s.handlers && s.entries[e].mask.write ==>
          s.handlers[s.entries[e].eh].state == Connecting)
    && (forall h :: h in s.handlers && s.handlers[h].state != Closed ==>
          (s.handlers[h].hasOutput <==> s.handlers[h].state != Listening))
  }

  /** Removed entries wait on the list, once each, until they are freed. */
  ghost predicate RemovedAgree(s: State) {
    && Distinct(s.removed)
    && (forall e :: e in s.removed <==> e in s.entries && s.entries[e].fd == INVALID)
    && (forall e :: e in s.entries ==> e < s.nextPtr)
    && (forall h :: h in s.handlers ==> h < s.nextPtr)
  }

  // What may come after what: nothing is dispatched to or removed again after its removal, nothing happens
  // to a freed entry, a handler hears on_connect once, and one that blocked never sends again.
  predicate MayFollow(a: LogItem, b: LogItem) {
    match a
    case Removed(e) => b != Input(e) && b != Output(e) && b != Removed(e)
    case Freed(e) => b != Input(e) && b != Output(e) && b != Removed(e) && b != Freed(e)
    case OnConnect(h) => b != OnConnect(h)
    case Blocked(h) => b != Sent(h) && b != Blocked(h)
    case _ => true
  }

  predicate SafeLog(log: seq<LogItem>) {
    forall i, j :: 0 <= i < j < |log| ==> MayFollow(log[i], log[j])
  }

  ghost predicate LogAgrees(s: State) {
    && SafeLog(s.log)
    && (forall e: nat :: Removed(e) in s.log <==> e in s.removed || Freed(e) in s.log)
    && (forall e: nat :: Freed(e) in s.log ==> e !in s.entries && e < s.nextPtr)
    && (forall h: nat :: OnConnect(h) in s.log ==>
          h < s.nextPtr && (h in s.handlers ==> s.handlers[h].state == Established))
  }

  /** can_send says exactly whether the handler has never met EAGAIN. */
  ghost predicate CanSendAgrees(s: State) {
    && (forall h: nat :: h in s.handlers ==> (s.handlers[h].canSend <==> Blocked(h) !in s.log))
    && (forall h: nat :: Blocked(h) in s.log ==> h < s.nextPtr)
  }

  ghost predicate Registered(s: State) { KernelAgrees(s) && HandlersAgree(s) && MasksFitStates(s) }

  ghost predicate Inv(s: State) { Registered(s) && RemovedAgree(s) && LogAgrees(s) && CanSendAgrees(s) }

  const EMPTY := State(map[], map[], map[], [], 0, [])

  // ---------- what the operations do ----------

  function Created(s: State): State {
    s.(handlers := s.handlers[s.nextPtr := Handler(Closed, INVALID, INVALID, true, true)], nextPtr := s.nextPtr + 1)
  }

  // A closed handler gets a descriptor, a state and a registered entry: listen, connect, accept.
  function Opened(s: State, h: nat, fd: int, state: TcpState, mask: Mask): State
    requires h in s.handlers
  {
    var e := s.nextPtr;
    var was := s.handlers[h];
    s.(handlers := s.handlers[h := was.(state := state, fd := fd, entry := e, hasOutput := state != Listening)],
       entries := s.entries[e := Entry(mask, fd, h)],
       kernel := s.kernel[fd := Interest(e, mask)],
       nextPtr := e + 1)
  }

  // nwc_io_close: the entry is removed from the kernel and parked, the handler freed.
  function ClosedAndFreed(s: State, h: nat): State
    requires h in s.handlers
    requires s.handlers[h].state != Closed ==> s.handlers[h].entry >= 0 && s.handlers[h].entry in s.entries
  {
    var closed := if s.handlers[h].state == Closed then s else Unregistered(s, s.handlers[h].entry);
    closed.(handlers := closed.handlers - {h})
  }

  function Unregistered(s: State, e: nat): State
    requires e in s.entries
  {
    s.(entries := s.entries[e := s.entries[e].(mask := NONE, fd := INVALID)],
       kernel := s.kernel - {s.entries[e].fd},
       removed := s.removed + [e],
       log := s.log + [Removed(e)])
  }

  function Remasked(s: State, e: nat, mask: Mask): State
    requires Live(s, e)
  {
    s.(entries := s.entries[e := s.entries[e].(mask := mask)],
       kernel := s.kernel[s.entries[e].fd := Interest(e, mask)])
  }

  function Logged(s: State, item: LogItem): State { s.(log := s.log + [item]) }

  function Connected(s: State, h: nat): State
    requires h in s.handlers
  {
    Logged(s.(handlers := s.handlers[h := s.handlers[h].(state := Established)]), OnConnect(h))
  }

  // A send of the connection layer, which the kernel takes bytes of or refuses with EAGAIN.
  function AfterSend(s: State, h: nat, blocks: bool): State
    requires h in s.handlers
  {
    if blocks then Logged(s.(handlers := s.handlers[h := s.handlers[h].(canSend := false)]), Blocked(h))
    else Logged(s, Sent(h))
  }

  function FreedFirst(s: State): State
    requires s.removed != []
  {
    s.(entries := s.entries - {s.removed[0]}, removed := s.removed[1..], log := s.log + [Freed(s.removed[0])])
  }

  function FreedAll(s: State): State
    decreases |s.removed|
  {
    if s.removed == [] then s else FreedAll(FreedFirst(s))
  }

  function Frees(q: seq<nat>): seq<LogItem> { seq(|q|, i requires 0 <= i < |q| => Freed(q[i])) }

  /** Each parked entry is freed once, in the order of removal, and nothing else changes. */
  lemma {:induction false} FreedAllIsExact(s: State)
    ensures var t := FreedAll(s);
            && t.removed == [] && t.log == s.log + Frees(s.removed)
            && t.handlers == s.handlers && t.kernel == s.kernel && t.nextPtr == s.nextPtr
            && (forall e :: e in t.entries <==> e in s.entries && e !in s.removed)
    decreases |s.removed|
  {
    if s.removed != [] {
      FreedAllIsExact(FreedFirst(s));
      assert Frees(s.removed) == [Freed(s.removed[0])] + Frees(s.removed[1..]);
    }
  }

  // ---------- every operation keeps the invariant ----------

  lemma SafeLogSnoc(log: seq<LogItem>, item: LogItem)
    requires SafeLog(log) && forall i :: 0 <= i < |log| ==> MayFollow(log[i], item)
    ensures SafeLog(log + [item])
  {
  }

  lemma CreateKeeps(s: State)
    requires Inv(s)
    ensures Inv(Created(s))
  {
    var t := Created(s);
    assert forall e :: Live(t, e) <==> Live(s, e);
  }

  lemma OpenRegisters(s: State, h: nat, fd: int, state: TcpState, mask: Mask)
    requires Registered(s) && RemovedAgree(s) && h in s.handlers && s.handlers[h].state == Closed
    requires fd != INVALID && fd !in s.kernel && state != Closed && mask.read && (mask.write ==> state == Connecting)
    ensures Registered(Opened(s, h, fd, state, mask))
  {
    var t := Opened(s, h, fd, state, mask);
    assert forall e :: Live(t, e) <==> Live(s, e) || e == s.nextPtr;
  }

  lemma OpenKeeps(s: State, h: nat, fd: int, state: TcpState, mask: Mask)
    requires Inv(s) && h in s.handlers && s.handlers[h].state == Closed
    requires fd != INVALID && fd !in s.kernel && state != Closed && mask.read && (mask.write ==> state == Connecting)
    ensures Inv(Opened(s, h, fd, state, mask))
  {
    OpenRegisters(s, h, fd, state, mask);
    assert OnConnect(h) !in s.log;
  }

  lemma CloseRegisters(s: State, h: nat)
    requires Registered(s) && h in s.handlers && s.handlers[h].state != Closed
    ensures Registered(ClosedAndFreed(s, h))
  {
    var e, t := s.handlers[h].entry, ClosedAndFreed(s, h);
    assert forall x :: Live(t, x) <==> Live(s, x) && x != e;
  }

  lemma CloseLogs(s: State, h: nat)
    requires RemovedAgree(s) && LogAgrees(s) && h in s.handlers && s.handlers[h].state != Closed
    requires s.handlers[h].entry >= 0 && Live(s, s.handlers[h].entry)
    ensures RemovedAgree(ClosedAndFreed(s, h)) && LogAgrees(ClosedAndFreed(s, h))
  {
    var e := s.handlers[h].entry;
    assert e !in s.removed && Removed(e) !in s.log;
    SafeLogSnoc(s.log, Removed(e));
  }

  lemma FreeClosedKeeps(s: State, h: nat)
    requires Inv(s) && h in s.handlers && s.handlers[h].state == Closed
    ensures Inv(ClosedAndFreed(s, h))
  {
    var t := ClosedAndFreed(s, h);
    assert forall e :: Live(t, e) <==> Live(s, e);
  }

  lemma CloseKeeps(s: State, h: nat)
    requires Inv(s) && h in s.handlers
    ensures Inv(ClosedAndFreed(s, h))
  {
    if s.handlers[h].state == Closed {
      FreeClosedKeeps(s, h);
    } else {
      CloseRegisters(s, h);
      CloseLogs(s, h);
    }
  }

  lemma RemaskKeeps(s: State, e: nat, mask: Mask)
    requires Inv(s) && Live(s, e) && mask.read && (mask.write ==> s.entries[e].mask.write)
    ensures Inv(Remasked(s, e, mask))
  {
    var t := Remasked(s, e, mask);
    assert forall x :: Live(t, x) <==> Live(s, x);
  }

  lemma DispatchKeeps(s: State, item: LogItem)
    requires Inv(s) && (item.Input? || item.Output?) && Live(s, item.entry)
    ensures Inv(Logged(s, item))
  {
    var t := Logged(s, item);
    assert forall x :: Live(t, x) <==> Live(s, x);
    assert item.entry !in s.removed && Removed(item.entry) !in s.log;
    SafeLogSnoc(s.log, item);
  }

  lemma FreeRegisters(s: State)
    requires Registered(s) && RemovedAgree(s) && s.removed != []
    ensures Registered(FreedFirst(s))
  {
    var t := FreedFirst(s);
    assert forall x :: Live(t, x) <==> Live(s, x);
  }

  lemma FreeLogs(s: State)
    requires RemovedAgree(s) && LogAgrees(s) && s.removed != []
    ensures RemovedAgree(FreedFirst(s)) && LogAgrees(FreedFirst(s))
  {
    var t, e := FreedFirst(s), s.removed[0];
    assert Removed(e) in s.log && Freed(e) !in s.log;
    assert forall x :: x in t.removed <==> x in s.removed && x != e;
    SafeLogSnoc(s.log, Freed(e));
  }

  lemma FreeKeeps(s: State)
    requires Inv(s) && s.removed != []
    ensures Inv(FreedFirst(s))
  {
    FreeRegisters(s);
    FreeLogs(s);
  }

  lemma ConnectedRegisters(s: State, h: nat)
    requires Registered(s) && h in s.handlers && s.handlers[h].state == Connecting
    requires !s.entries[s.handlers[h].entry].mask.write
    ensures Registered(Connected(s, h))
  {
    var t := Connected(s, h);
    assert forall x :: Live(t, x) <==> Live(s, x);
  }

  lemma ConnectedLogs(s: State, h: nat)
    requires LogAgrees(s) && RemovedAgree(s) && h in s.handlers && s.handlers[h].state == Connecting
    ensures LogAgrees(Connected(s, h))
  {
    assert OnConnect(h) !in s.log;
    SafeLogSnoc(s.log, OnConnect(h));
  }

  lemma ConnectedKeeps(s: State, h: nat)
    requires Inv(s) && h in s.handlers && s.handlers[h].state == Connecting
    requires !s.entries[s.handlers[h].entry].mask.write
    ensures Inv(Connected(s, h))
  {
    ConnectedRegisters(s, h);
    ConnectedLogs(s, h);
  }

  lemma SendRegisters(s: State, h: nat, blocks: bool)
    requires Registered(s) && RemovedAgree(s) && h in s.handlers
    ensures Registered(AfterSend(s, h, blocks)) && RemovedAgree(AfterSend(s, h, blocks))
  {
    var t := AfterSend(s, h, blocks);
    assert forall x :: Live(t, x) <==> Live(s, x);
  }

  lemma SendLogs(s: State, h: nat, blocks: bool)
    requires LogAgrees(s) && CanSendAgrees(s) && h in s.handlers && s.handlers[h].canSend && h < s.nextPtr
    ensures LogAgrees(AfterSend(s, h, blocks)) && CanSendAgrees(AfterSend(s, h, blocks))
  {
    SafeLogSnoc(s.log, if blocks then Blocked(h) else Sent(h));
  }

  lemma SendKeeps(s: State, h: nat, blocks: bool)
    requires Inv(s) && h in s.handlers && s.handlers[h].canSend
    ensures Inv(AfterSend(s, h, blocks))
  {
    SendRegisters(s, h, blocks);
    SendLogs(s, h, blocks);
  }

  // ---------- what a dispatch may change ----------

  /** From s to t the log only grows and every entry is still allocated: untouched, or removed, or (for own
      alone) remasked. */
  ghost predicate Evolves(s: State, t: State, own: set<nat>) {
    && s.log <= t.log
    && (forall e :: e in s.entries ==>
          e in t.entries && (t.entries[e] == s.entries[e] || t.entries[e].fd == INVALID || (e in own && Live(s, e))))
  }

  lemma EvolvesTwice(s: State, t: State, u: State, first: set<nat>, second: set<nat>, own: set<nat>)
    requires Evolves(s, t, first) && Evolves(t, u, second) && first <= own && second <= own && RemovedAgree(s)
    ensures Evolves(s, u, own)
  {
  }

  // The events delivered to handlers, out of everything that happened.
  function Dispatches(log: seq<LogItem>): seq<LogItem> {
    if log == [] then []
    else
      var last := log[|log| - 1];
      Dispatches(log[..|log| - 1]) + (if last.Input? || last.Output? then [last] else [])
  }

  lemma DispatchesSnoc(log: seq<LogItem>, item: LogItem)
    ensures Dispatches(log + [item]) == Dispatches(log) + (if item.Input? || item.Output? then [item] else [])
  {
    assert (log + [item])[..|log|] == log;
  }

  lemma {:induction false} DispatchesFrees(log: seq<LogItem>, q: seq<nat>)
    ensures Dispatches(log + Frees(q)) == Dispatches(log)
  {
    if q == [] {
      assert log + Frees(q) == log;
    } else {
      var last := |q| - 1;
      DispatchesFrees(log, q[..last]);
      DispatchesSnoc(log + Frees(q[..last]), Freed(q[last]));
      assert log + Frees(q) == (log + Frees(q[..last])) + [Freed(q[last])];
    }
  }

  // ---------- what the environment does ----------

  datatype ConnectResult = Done | InProgress | Refused(rc: int)

  datatype Act = CloseHandler(h: nat) | Send(h: nat, blocks: bool)

  // One element of the list epoll_wait fills in.
  datatype Ready = Ready(entry: nat, hangup: bool, readable: bool, writable: bool)

  // How epoll_wait ended: with a list, with EINTR, or with another error, which ends the loop.
  datatype RoundEnd = Completed | Interrupted | Failed

  // What accept returned, -1 or a descriptor, and whether on_accept took the connection.
  datatype Offer = Offer(fd: int, agreed: bool)

  /** What is outside the loop, asked right before a handler is dispatched: accept and on_accept, the SO_ERROR of its
      socket, and what the connection layer's callback does. */
  datatype World = World(accept: State -> Offer, soError: State -> int, acts: State -> seq<Act>)

  /** What the environment does in a round: what the workers do, how epoll_wait ends, what it reports in the state
      the workers leave, and what the dispatched handlers meet. */
  datatype Plan = Plan(acts: seq<Act>, end: RoundEnd, poll: State -> seq<Ready>, world: World)

  const EINPROGRESS := 115

  // ECONNREFUSED, ECONNRESET, ETIMEDOUT, EHOSTUNREACH, ENETUNREACH, ENETDOWN, EINVAL
  predicate FatalConnectError(err: int) { err in {111, 104, 110, 113, 101, 100, 22} }

  // The kernel reports each registered entry at most once, and reports only the events it is asked for.
  predicate Reported(s: State, ready: seq<Ready>) {
    && DistinctEntries(ready)
    && forall i :: 0 <= i < |ready| ==> IsReported(s, ready[i])
  }

  predicate DistinctEntries(ready: seq<Ready>) {
    forall i, j :: 0 <= i < j < |ready| ==> ready[i].entry != ready[j].entry
  }

  predicate IsReported(s: State, r: Ready) { exists fd :: fd in s.kernel && ReportedBy(s.kernel[fd], r) }

  predicate ReportedBy(interest: Interest, r: Ready) {
    interest.entry == r.entry && (r.readable ==> interest.events.read) && (r.writable ==> interest.events.write)
  }

  // accept returns no descriptor that is in use.
  ghost predicate Sane(w: World) { forall s :: Inv(s) ==> w.accept(s).fd !in s.kernel }

  ghost predicate Honest(plan: Plan) { (forall s :: Inv(s) ==> Reported(s, plan.poll(s))) && Sane(plan.world) }

  // ---------- what a dispatch does ----------

  // What a callback does: nothing to handlers that do not exist, and no send once one was blocked.
  function ActOn(s: State, act: Act): State {
    if act.h !in s.handlers then s
    else
      var h := s.handlers[act.h];
      match act
      case CloseHandler(_) =>
        if h.state == Closed || (h.entry >= 0 && h.entry in s.entries) then ClosedAndFreed(s, act.h) else s
      case Send(_, blocks) => if h.canSend then AfterSend(s, act.h, blocks) else s
  }

  function AfterActs(s: State, acts: seq<Act>): State {
    if acts == [] then s else ActOn(AfterActs(s, acts[..|acts| - 1]), acts[|acts| - 1])
  }

  function AfterAccept(s: State, offer: Offer): State {
    if offer.fd == INVALID then s
    else if !offer.agreed then s.(nextPtr := s.nextPtr + 1)
    else Opened(Created(s), s.nextPtr, offer.fd, Established, Mask(true, false))
  }

  // handle_input: a listener accepts, any other handler receives.
  function AfterInput(s: State, e: nat, offer: Offer, acts: seq<Act>): State
    requires e in s.entries && s.entries[e].eh in s.handlers
  {
    var t := Logged(s, Input(e));
    if s.handlers[s.entries[e].eh].state == Listening then AfterAccept(t, offer) else AfterActs(t, acts)
  }

  // The head of handle_output: the entry stops waiting for writability.
  function BegunOutput(s: State, e: nat): State
    requires Live(s, e)
  {
    Remasked(Logged(s, Output(e)), e, Mask(s.entries[e].mask.read, false))
  }

  // handle_output of a connecting handler.
  function AfterOutput(s: State, e: nat, err: int, acts: seq<Act>): State
    requires Live(s, e) && s.entries[e].eh in s.handlers
  {
    var t := BegunOutput(s, e);
    if FatalConnectError(err) then t else AfterActs(Connected(t, s.entries[e].eh), acts)
  }

  // A test of the loop body and the call it guards; a removed entry is passed over.
  function InputIf(s: State, wanted: bool, e: nat, w: World): State {
    if wanted && Live(s, e) && s.entries[e].eh in s.handlers then AfterInput(s, e, w.accept(s), w.acts(s)) else s
  }

  function OutputIf(s: State, wanted: bool, e: nat, w: World): State {
    if wanted && Live(s, e) && s.entries[e].eh in s.handlers then AfterOutput(s, e, w.soError(s), w.acts(s)) else s
  }

  function AfterElement(s: State, r: Ready, w: World): State {
    OutputIf(InputIf(InputIf(s, r.hangup, r.entry, w), r.readable, r.entry, w), r.writable, r.entry, w)
  }

  function AfterBatch(s: State, ready: seq<Ready>, w: World): State {
    if ready == [] then s else AfterElement(AfterBatch(s, ready[..|ready| - 1], w), ready[|ready| - 1], w)
  }

  // The workers, the wait, the batch and the free loop.
  function AfterRound(s: State, plan: Plan): State {
    var t := AfterActs(s, plan.acts);
    if plan.end != Completed then t else FreedAll(AfterBatch(t, plan.poll(t), plan.world))
  }

  // ---------- callbacks ----------

  // The handlers that are left are in the states they were in.
  ghost predicate StatesStay(s: State, t: State) {
    forall h :: h in t.handlers ==> h in s.handlers && t.handlers[h].state == s.handlers[h].state
  }

  // What a callback leaves to the dispatch that runs it.
  ghost predicate Undisturbed(s: State, t: State) {
    Inv(t) && Evolves(s, t, {}) && StatesStay(s, t) && Dispatches(t.log) == Dispatches(s.log)
  }

  lemma CloseActKeeps(s: State, h: nat)
    requires Inv(s) && h in s.handlers
    ensures Undisturbed(s, ClosedAndFreed(s, h))
  {
    CloseKeeps(s, h);
    if s.handlers[h].state != Closed {
      DispatchesSnoc(s.log, Removed(s.handlers[h].entry));
    }
  }

  lemma SendActKeeps(s: State, h: nat, blocks: bool)
    requires Inv(s) && h in s.handlers && s.handlers[h].canSend
    ensures Undisturbed(s, AfterSend(s, h, blocks))
  {
    SendKeeps(s, h, blocks);
    SendIsQuiet(s, h, blocks);
  }

  lemma SendIsQuiet(s: State, h: nat, blocks: bool)
    requires h in s.handlers
    ensures var t := AfterSend(s, h, blocks);
            Evolves(s, t, {}) && StatesStay(s, t) && Dispatches(t.log) == Dispatches(s.log)
  {
    DispatchesSnoc(s.log, if blocks then Blocked(h) else Sent(h));
  }

  lemma ActKeeps(s: State, act: Act)
    requires Inv(s)
    ensures Undisturbed(s, ActOn(s, act))
  {
    if act.CloseHandler? && act.h in s.handlers {
      CloseActKeeps(s, act.h);
    } else if act.Send? && act.h in s.handlers && s.handlers[act.h].canSend {
      SendActKeeps(s, act.h, act.blocks);
    }
  }

  lemma {:induction false} ActsKeep(s: State, acts: seq<Act>)
    requires Inv(s)
    ensures Undisturbed(s, AfterActs(s, acts))
  {
    if acts != [] {
      var t := AfterActs(s, acts[..|acts| - 1]);
      ActsKeep(s, acts[..|acts| - 1]);
      ActKeeps(t, acts[|acts| - 1]);
      EvolvesTwice(s, t, AfterActs(s, acts), {}, {}, {});
    }
  }

  /** Closing and freeing a handler: its entry leaves the kernel's interest set and is parked, and nothing else
      changes. A closed handler is only freed. */
  lemma CloseMeans(s: State, h: nat)
    requires Inv(s) && h in s.handlers
    ensures var t, e := ActOn(s, CloseHandler(h)), s.handlers[h].entry;
            && t.handlers == s.handlers - {h} && t.nextPtr == s.nextPtr
            && (s.handlers[h].state == Closed ==>
                  t.entries == s.entries && t.kernel == s.kernel && t.removed == s.removed && t.log == s.log)
            && (s.handlers[h].state != Closed ==>
                  && e >= 0 && e in s.entries
                  && t.entries == s.entries[e := Entry(Mask(false, false), -1, h)]
                  && t.kernel == s.kernel - {s.entries[e].fd}
                  && t.removed == s.removed + [e] && t.log == s.log + [Removed(e)])
  {
  }

  /** A send is tried exactly when can_send is set. One that meets EAGAIN clears it, and that and the history are all
      that changes. */
  lemma SendMeans(s: State, h: nat, blocks: bool)
    requires h in s.handlers
    ensures var t, was := ActOn(s, Send(h, blocks)), s.handlers[h];
            if !was.canSend then t == s
            else if blocks then
              t == s.(handlers := s.handlers[h := was.(canSend := false)], log := s.log + [Blocked(h)])
            else t == s.(log := s.log + [Sent(h)])
  {
  }

  // ---------- one dispatch ----------

  lemma DeclineKeeps(s: State)
    requires Inv(s)
    ensures Inv(s.(nextPtr := s.nextPtr + 1))
  {
    var t := s.(nextPtr := s.nextPtr + 1);
    assert forall e :: Live(t, e) <==> Live(s, e);
  }

  lemma AcceptKeeps(s: State, offer: Offer)
    requires Inv(s) && offer.fd !in s.kernel
    ensures Inv(AfterAccept(s, offer)) && Evolves(s, AfterAccept(s, offer), {}) && AfterAccept(s, offer).log == s.log
  {
    if offer.fd == INVALID {
    } else if offer.agreed {
      CreateKeeps(s);
      OpenKeeps(Created(s), s.nextPtr, offer.fd, Established, Mask(true, false));
    } else {
      DeclineKeeps(s);
    }
  }

  /** Nothing when accept failed; a connection that on_accept declines leaves no more than a used address; otherwise the
      new descriptor gets an established handler that can send, with an entry that waits for input. */
  lemma AcceptMeans(s: State, offer: Offer)
    ensures offer.fd == -1 ==> AfterAccept(s, offer) == s
    ensures offer.fd != -1 && !offer.agreed ==> AfterAccept(s, offer) == s.(nextPtr := s.nextPtr + 1)
    ensures offer.fd != -1 && offer.agreed ==>
              var t, h, e := AfterAccept(s, offer), s.nextPtr, s.nextPtr + 1;
              && t.handlers == s.handlers[h := Handler(Established, offer.fd, e, true, true)]
              && t.entries == s.entries[e := Entry(Mask(true, false), offer.fd, h)]
              && t.kernel == s.kernel[offer.fd := Interest(e, Mask(true, false))]
              && t.removed == s.removed && t.log == s.log && t.nextPtr == s.nextPtr + 2
  {
  }

  lemma InputKeeps(s: State, e: nat, offer: Offer, acts: seq<Act>)
    requires Inv(s) && Live(s, e) && offer.fd !in s.kernel
    ensures var t := AfterInput(s, e, offer, acts);
            Inv(t) && Evolves(s, t, {}) && Dispatches(t.log) == Dispatches(s.log) + [Input(e)]
  {
    var t := Logged(s, Input(e));
    DispatchKeeps(s, Input(e));
    DispatchesSnoc(s.log, Input(e));
    if s.handlers[s.entries[e].eh].state == Listening {
      AcceptKeeps(t, offer);
    } else {
      ActsKeep(t, acts);
    }
    EvolvesTwice(s, t, AfterInput(s, e, offer, acts), {}, {}, {});
  }

  lemma BeginKeeps(s: State, e: nat)
    requires Inv(s) && Live(s, e)
    ensures var t, h := BegunOutput(s, e), s.entries[e].eh;
            && Inv(t) && Evolves(s, t, {e}) && Dispatches(t.log) == Dispatches(s.log) + [Output(e)]
            && h in s.handlers && t.handlers[h].entry == e && !t.entries[e].mask.write
            && (s.entries[e].mask.write ==> s.handlers[h].state == Connecting)
  {
    DispatchKeeps(s, Output(e));
    DispatchesSnoc(s.log, Output(e));
    RemaskKeeps(Logged(s, Output(e)), e, Mask(s.entries[e].mask.read, false));
  }

  // on_connect and what its callback does.
  lemma ConnectKeeps(s: State, h: nat, acts: seq<Act>)
    requires Inv(s) && h in s.handlers && s.handlers[h].state == Connecting
    requires !s.entries[s.handlers[h].entry].mask.write
    ensures var t := AfterActs(Connected(s, h), acts);
            && Inv(t) && Evolves(s, t, {}) && Dispatches(t.log) == Dispatches(s.log)
            && s.log + [OnConnect(h)] <= t.log && (h in t.handlers ==> t.handlers[h].state == Established)
  {
    var t := Connected(s, h);
    ConnectedKeeps(s, h);
    DispatchesSnoc(s.log, OnConnect(h));
    ActsKeep(t, acts);
    EvolvesTwice(s, t, AfterActs(t, acts), {}, {}, {});
  }

  lemma FatalKeeps(s: State, e: nat, err: int, acts: seq<Act>)
    requires Inv(s) && Live(s, e) && err in {111, 104, 110, 113, 101, 100, 22}
    ensures var t := AfterOutput(s, e, err, acts);
            && Inv(t) && Evolves(s, t, {e}) && Dispatches(t.log) == Dispatches(s.log) + [Output(e)]
            && t.handlers == s.handlers && t.log == s.log + [Output(e)] && !t.entries[e].mask.write
  {
    BeginKeeps(s, e);
  }

  lemma LogTwo(log: seq<LogItem>, first: LogItem, second: LogItem)
    ensures log + [first, second] == (log + [first]) + [second]
  {
  }

  lemma EstablishKeeps(s: State, e: nat, err: int, acts: seq<Act>)
    requires Inv(s) && Live(s, e) && s.entries[e].mask.write && err !in {111, 104, 110, 113, 101, 100, 22}
    ensures var t, h := AfterOutput(s, e, err, acts), s.entries[e].eh;
            && Inv(t) && Evolves(s, t, {e}) && Dispatches(t.log) == Dispatches(s.log) + [Output(e)]
            && s.log + [Output(e), OnConnect(h)] <= t.log && (h in t.handlers ==> t.handlers[h].state == Established)
  {
    var t, h := BegunOutput(s, e), s.entries[e].eh;
    BeginKeeps(s, e);
    ConnectKeeps(t, h, acts);
    EvolvesTwice(s, t, AfterOutput(s, e, err, acts), {e}, {}, {e});
    LogTwo(s.log, Output(e), OnConnect(h));
  }

  /** handle_output finds the handler connecting: writability is asked for in no other state. Each of the seven errors
      leaves it so, no longer waiting for writability and without on_connect; 0 and every other error establish it. */
  lemma OutputKeeps(s: State, e: nat, err: int, acts: seq<Act>)
    requires Inv(s) && Live(s, e) && s.entries[e].mask.write
    ensures var t, h := AfterOutput(s, e, err, acts), s.entries[e].eh;
            && Inv(t) && Evolves(s, t, {e}) && Dispatches(t.log) == Dispatches(s.log) + [Output(e)]
            && s.handlers[h].state == Connecting
            && (err in {111, 104, 110, 113, 101, 100, 22} ==>
                  t.handlers == s.handlers && t.log == s.log + [Output(e)] && !t.entries[e].mask.write)
            && (err !in {111, 104, 110, 113, 101, 100, 22} ==>
                  && s.log + [Output(e), OnConnect(h)] <= t.log
                  && (h in t.handlers ==> t.handlers[h].state == Established))
  {
    if err in {111, 104, 110, 113, 101, 100, 22} {
      FatalKeeps(s, e, err, acts);
    } else {
      EstablishKeeps(s, e, err, acts);
    }
  }

  // ---------- one element of the ready list ----------

  lemma DeadWasRemoved(s: State, e: nat)
    requires Inv(s) && e in s.entries && !Live(s, e)
    ensures Removed(e) in s.log
  {
  }

  // A reported entry is allocated, and while it lives a reported writability is still asked for.
  predicate Dispatchable(s: State, r: Ready) {
    r.entry in s.entries && (Live(s, r.entry) && r.writable ==> s.entries[r.entry].mask.write)
  }

  lemma DispatchableStays(s: State, t: State, own: set<nat>, r: Ready)
    requires Evolves(s, t, own) && Dispatchable(s, r) && r.entry !in own
    ensures Dispatchable(t, r)
  {
  }

  lemma ReportedIsDispatchable(s: State, ready: seq<Ready>, i: nat)
    requires KernelAgrees(s) && Reported(s, ready) && i < |ready|
    ensures Dispatchable(s, ready[i])
  {
    assert IsReported(s, ready[i]);
    var fd :| fd in s.kernel && ReportedBy(s.kernel[fd], ready[i]);
    assert Live(s, s.kernel[fd].entry);
  }

  /** A part is everything its element asks for, in this order: input for a hang-up, input, output. If the entry was
      removed it may be a beginning of that. */
  predicate Fits(part: seq<LogItem>, r: Ready, log: seq<LogItem>) {
    var all := (if r.hangup then [Input(r.entry)] else []) + (if r.readable then [Input(r.entry)] else [])
               + (if r.writable then [Output(r.entry)] else []);
    part <= all && (Removed(r.entry) !in log ==> part == all)
  }

  lemma InputIfKeeps(s: State, wanted: bool, r: Ready, w: World) returns (part: seq<LogItem>)
    requires Inv(s) && Dispatchable(s, r) && Sane(w)
    ensures var t := InputIf(s, wanted, r.entry, w);
            && Inv(t) && Evolves(s, t, {}) && Dispatchable(t, r) && Dispatches(t.log) == Dispatches(s.log) + part
            && part == (if wanted && Live(s, r.entry) then [Input(r.entry)] else [])
            && (Live(t, r.entry) ==> Live(s, r.entry))
  {
    part := [];
    if wanted && Live(s, r.entry) {
      part := [Input(r.entry)];
      InputKeeps(s, r.entry, w.accept(s), w.acts(s));
      DispatchableStays(s, InputIf(s, wanted, r.entry, w), {}, r);
    }
  }

  lemma OutputIfKeeps(s: State, r: Ready, w: World) returns (part: seq<LogItem>)
    requires Inv(s) && Dispatchable(s, r)
    ensures var t := OutputIf(s, r.writable, r.entry, w);
            && Inv(t) && Evolves(s, t, {r.entry}) && Dispatches(t.log) == Dispatches(s.log) + part
            && part == (if r.writable && Live(s, r.entry) then [Output(r.entry)] else [])
  {
    part := [];
    if r.writable && Live(s, r.entry) {
      part := [Output(r.entry)];
      OutputKeeps(s, r.entry, w.soError(s), w.acts(s));
    }
  }

  lemma ElementKeeps(s: State, r: Ready, w: World) returns (part: seq<LogItem>)
    requires Inv(s) && Dispatchable(s, r) && Sane(w)
    ensures var t := AfterElement(s, r, w);
            && Inv(t) && Evolves(s, t, {r.entry})
            && Dispatches(t.log) == Dispatches(s.log) + part && Fits(part, r, t.log)
  {
    var e := r.entry;
    var t := InputIf(s, r.hangup, e, w);
    var u := InputIf(t, r.readable, e, w);
    var first := InputIfKeeps(s, r.hangup, r, w);
    var second := InputIfKeeps(t, r.readable, r, w);
    EvolvesTwice(s, t, u, {}, {}, {});
    var third := OutputIfKeeps(u, r, w);
    EvolvesTwice(s, u, AfterElement(s, r, w), {}, {e}, {e});
    part := first + second + third;
    PartFits(s, t, u, r, first, second, third, AfterElement(s, r, w).log);
    Regroup(Dispatches(s.log), first, second);
    Regroup(Dispatches(s.log), first + second, third);
  }

  // The three calls: those behind the removal of the entry are missing.
  lemma PartFits(s: State, t: State, u: State, r: Ready, first: seq<LogItem>, second: seq<LogItem>,
                 third: seq<LogItem>, log: seq<LogItem>)
    requires first == if r.hangup && Live(s, r.entry) then [Input(r.entry)] else []
    requires second == if r.readable && Live(t, r.entry) then [Input(r.entry)] else []
    requires third == if r.writable && Live(u, r.entry) then [Output(r.entry)] else []
    requires Live(u, r.entry) ==> Live(t, r.entry)
    requires Live(t, r.entry) ==> Live(s, r.entry)
    requires Inv(u) && r.entry in u.entries && u.log <= log
    ensures Fits(first + second + third, r, log)
  {
    if !Live(u, r.entry) {
      DeadWasRemoved(u, r.entry);
    }
  }

  class Stack {
    var handlers: map<nat, Handler>
    var entries: map<nat, Entry>
    var kernel: map<int, Interest>
    var removed: seq<nat>
    var nextPtr: nat
    var log: seq<LogItem>

    function Value(): State
      reads this
    {
      State(handlers, entries, kernel, removed, nextPtr, log)
    }

    ghost predicate Valid()
      reads this
    {
      Inv(Value())
    }

    constructor ()
      ensures Valid() && Value() == EMPTY
    {
      handlers, entries, kernel := map[], map[], map[];
      removed, nextPtr, log := [], 0, [];
    }

    // ----- nwc_epoll_looper.c -----

    method AddHandler(h: nat) returns (e: nat)
      requires h in handlers
      modifies this
      ensures e == old(nextPtr)
      ensures var fd := old(handlers)[h].fd;
              Value() == old(Value()).(entries := old(entries)[e := Entry(NONE, fd, h)],
                                       kernel := old(kernel)[fd := Interest(e, NONE)], nextPtr := e + 1)
    {
      e := nextPtr;
      nextPtr := nextPtr + 1;
      entries := entries[e := Entry(NONE, handlers[h].fd, h)];
      kernel := kernel[handlers[h].fd := Interest(e, entries[e].mask)];
    }

    method RegisterEvent(e: nat, events: Mask)
      requires Live(Value(), e)
      modifies this
      ensures var was := old(entries)[e].mask;
              Value() == Remasked(old(Value()), e, Mask(was.read || events.read, was.write || events.write))
    {
      var was := entries[e].mask;
      entries := entries[e := entries[e].(mask := Mask(was.read || events.read, was.write || events.write))];
      kernel := kernel[entries[e].fd := Interest(e, entries[e].mask)];
    }

    method CancelEvent(e: nat, events: Mask)
      requires Live(Value(), e)
      modifies this
      ensures var was := old(entries)[e].mask;
              Value() == Remasked(old(Value()), e, Mask(was.read && !events.read, was.write && !events.write))
    {
      var was := entries[e].mask;
      entries := entries[e := entries[e].(mask := Mask(was.read && !events.read, was.write && !events.write))];
      kernel := kernel[entries[e].fd := Interest(e, entries[e].mask)];
    }

    method RemoveHandler(e: nat)
      requires e in entries
      modifies this
      ensures Value() == Unregistered(old(Value()), e)
    {
      entries := entries[e := entries[e].(mask := NONE)];
      kernel := kernel - {entries[e].fd};
      entries := entries[e := entries[e].(fd := INVALID)];
      removed := removed + [e];
      log := log + [Removed(e)];
    }

    // ----- nwc_tcp_handler.c -----

    method Create() returns (h: nat)
      modifies this
      ensures h == old(nextPtr) && Value() == Created(old(Value()))
    {
      h := nextPtr;
      nextPtr := nextPtr + 1;
      handlers := handlers[h := Handler(Closed, INVALID, INVALID, true, true)];
    }

    // The handler's entry is added with an empty mask, then the events are registered.
    method Register(h: nat, events: Mask)
      requires h in handlers && handlers[h].fd != INVALID
      modifies this
      ensures var e, was := old(nextPtr), old(handlers)[h];
              Value() == old(Value()).(handlers := old(handlers)[h := was.(entry := e)],
                                       entries := old(entries)[e := Entry(events, was.fd, h)],
                                       kernel := old(kernel)[was.fd := Interest(e, events)], nextPtr := e + 1)
    {
      var e := AddHandler(h);
      handlers := handlers[h := handlers[h].(entry := e)];
      RegisterEvent(e, events);
    }

    // fd is what nwc_sock_listen returned: -1, or a descriptor.
    method Listen(h: nat, fd: int) returns (rc: int)
      requires h in handlers && handlers[h].state == Closed
      modifies this
      ensures fd == INVALID ==> rc == -1 && Value() == old(Value())
      ensures fd != INVALID ==> rc == 0 && Value() == Opened(old(Value()), h, fd, Listening, Mask(true, false))
    {
      if fd == INVALID {
        return -1;
      }
      handlers := handlers[h := handlers[h].(hasOutput := false, fd := fd, state := Listening)];
      Register(h, Mask(true, false));
      rc := 0;
    }

    method Connect(h: nat, result: ConnectResult, fd: int) returns (rc: int)
      requires h in handlers && handlers[h].state == Closed && handlers[h].hasOutput
      requires !result.Refused? ==> fd != INVALID
      modifies this
      ensures match result
              case Done => rc == 0 && Value() == Opened(old(Value()), h, fd, Established, Mask(true, false))
              case InProgress =>
                rc == -115 && Value() == Opened(old(Value()), h, fd, Connecting, Mask(true, true))
              case Refused(code) => rc == code && Value() == old(Value())
    {
      var events := Mask(true, false);
      match result {
        case Done =>
          handlers := handlers[h := handlers[h].(state := Established)];
          rc := 0;
        case InProgress =>
          events := Mask(true, true);
          handlers := handlers[h := handlers[h].(state := Connecting)];
          rc := -EINPROGRESS;
        case Refused(code) =>
          return code;
      }
      handlers := handlers[h := handlers[h].(fd := fd)];
      Register(h, events);
    }

    method Accept(h: nat, fd: int)
      requires h in handlers && handlers[h].hasOutput && fd != INVALID
      modifies this
      ensures Value() == Opened(old(Value()), h, fd, Established, Mask(true, false))
    {
      handlers := handlers[h := handlers[h].(fd := fd)];
      Register(h, Mask(true, false));
      handlers := handlers[h := handlers[h].(state := Established)];
    }

    // nwc_tcp_handler_close: all events are cancelled, then the entry is removed.
    method Close(h: nat)
      requires h in handlers
      requires handlers[h].state != Closed ==> handlers[h].entry >= 0 && Live(Value(), handlers[h].entry)
      modifies this
      ensures var was := old(handlers)[h];
              Value() == (if was.state == Closed then old(Value())
                          else Unregistered(old(Value()), was.entry).(
                            handlers := old(handlers)[h := was.(state := Closed, fd := INVALID)]))
    {
      if handlers[h].state == Closed {
        return;
      }
      var e := handlers[h].entry;
      handlers := handlers[h := handlers[h].(state := Closed)];
      CancelEvent(e, Mask(true, true));
      RemoveHandler(e);
      handlers := handlers[h := handlers[h].(fd := INVALID)];
    }

    // nwc_io_close: close, then free.
    method IoClose(h: nat)
      requires h in handlers
      requires handlers[h].state != Closed ==> handlers[h].entry >= 0 && Live(Value(), handlers[h].entry)
      modifies this
      ensures Value() == ClosedAndFreed(old(Value()), h)
    {
      Close(h);
      handlers := handlers - {h};
    }

    // nwc_tcp_handler_send, as the connection layer calls it: only while nwc_io_can_send.
    method SendIfAllowed(h: nat, blocks: bool)
      requires h in handlers
      modifies this
      ensures Value() == if old(handlers)[h].canSend then AfterSend(old(Value()), h, blocks) else old(Value())
    {
      if handlers[h].canSend {
        if blocks {
          handlers := handlers[h := handlers[h].(canSend := false)];
        }
        log := log + [if blocks then Blocked(h) else Sent(h)];
      }
    }

    // ----- dispatch -----

    // A callback of the connection layer: any number of closes and sends.
    method Callback(acts: seq<Act>)
      requires Valid()
      modifies this
      ensures Valid() && Value() == AfterActs(old(Value()), acts)
    {
      var i := 0;
      while i < |acts|
        invariant i <= |acts| && Valid() && Value() == AfterActs(old(Value()), acts[..i])
      {
        assert acts[..i + 1][..i] == acts[..i];
        Perform(acts[i]);
        i := i + 1;
      }
      assert acts[..i] == acts;
    }

    method Perform(act: Act)
      requires Valid()
      modifies this
      ensures Valid() && Value() == ActOn(old(Value()), act)
    {
      ActKeeps(Value(), act);
      if act.h in handlers {
        match act
        case CloseHandler(h) => IoClose(h);
        case Send(h, blocks) => SendIfAllowed(h, blocks);
      }
    }

    // The listening branch of nwc_tcp_handle_input: newfd is what accept returned, agreed what on_accept decided.
    method AcceptOne(newfd: int, agreed: bool)
      requires Valid() && newfd !in kernel
      modifies this
      ensures Valid() && Value() == AfterAccept(old(Value()), Offer(newfd, agreed))
      ensures newfd == -1 ==> Value() == old(Value())
      ensures newfd != -1 && !agreed ==> Value() == old(Value()).(nextPtr := old(nextPtr) + 1)
      ensures newfd != -1 && agreed ==>
                var h, e := old(nextPtr), old(nextPtr) + 1;
                && handlers == old(handlers)[h := Handler(Established, newfd, e, true, true)]
                && entries == old(entries)[e := Entry(Mask(true, false), newfd, h)]
                && kernel == old(kernel)[newfd := Interest(e, Mask(true, false))]
                && removed == old(removed) && log == old(log) && nextPtr == old(nextPtr) + 2
    {
      AcceptKeeps(Value(), Offer(newfd, agreed));
      AcceptMeans(Value(), Offer(newfd, agreed));
      if newfd == INVALID {
        return;
      }
      var newtcp := Create();
      if !agreed {
        Free(newtcp);
        assert handlers == old(handlers);
        return;
      }
      Accept(newtcp, newfd);
    }

    method Free(h: nat)
      requires h in handlers
      modifies this
      ensures Value() == old(Value()).(handlers := old(handlers) - {h})
    {
      handlers := handlers - {h};
    }

    /** nwc_tcp_handle_input: a listener accepts what is offered; any other handler receives, and its callback acts. */
    method HandleInput(e: nat, offer: Offer, acts: seq<Act>)
      requires Valid() && Live(Value(), e) && offer.fd !in kernel
      modifies this
      ensures Valid() && Value() == AfterInput(old(Value()), e, offer, acts)
      ensures Evolves(old(Value()), Value(), {}) && Dispatches(log) == Dispatches(old(log)) + [Input(e)]
      ensures var s := old(Value()).(log := old(log) + [Input(e)]);
              if old(handlers)[old(entries)[e].eh].state == Listening then Value() == AfterAccept(s, offer)
              else Value() == AfterActs(s, acts)
    {
      InputKeeps(Value(), e, offer, acts);
      DispatchKeeps(Value(), Input(e));
      log := log + [Input(e)];
      if handlers[entries[e].eh].state == Listening {
        AcceptOne(offer.fd, offer.agreed);
      } else {
        Callback(acts);
      }
    }

    /** SO_ERROR decides: on each of the seven fatal errors nothing happens, and the handler stays connecting; on 0 and
        every other error it becomes established and hears on_connect. */
    method FinishConnect(h: nat, err: int) returns (connected: bool)
      requires h in handlers
      modifies this
      ensures connected <==> err !in {111, 104, 110, 113, 101, 100, 22}
      ensures !connected ==> Value() == old(Value())
      ensures connected ==>
                && handlers == old(handlers)[h := old(handlers)[h].(state := Established)]
                && log == old(log) + [OnConnect(h)]
                && entries == old(entries) && kernel == old(kernel)
                && removed == old(removed) && nextPtr == old(nextPtr)
    {
      if FatalConnectError(err) {
        return false;
      }
      handlers := handlers[h := handlers[h].(state := Established)];
      log := log + [OnConnect(h)];
      connected := true;
    }

    /** nwc_tcp_handle_output is called through a pointer that a listener leaves NULL, and only while the entry waits
        for writability, so only on a connecting handler. On a fatal socket error that stays connecting, no longer
        waiting for writability, and hears nothing; on any other, or none, it is established and hears on_connect. */
    method HandleOutput(e: nat, err: int, acts: seq<Act>)
      requires Valid() && Live(Value(), e) && entries[e].mask.write
      modifies this
      ensures Valid() && Value() == AfterOutput(old(Value()), e, err, acts)
      ensures Evolves(old(Value()), Value(), {e}) && Dispatches(log) == Dispatches(old(log)) + [Output(e)]
      ensures var h := old(entries)[e].eh;
              && h in old(handlers) && old(handlers)[h].state == Connecting
              && (err in {111, 104, 110, 113, 101, 100, 22} ==>
                    handlers == old(handlers) && log == old(log) + [Output(e)] && !entries[e].mask.write)
              && (err !in {111, 104, 110, 113, 101, 100, 22} ==>
                    && old(log) + [Output(e), OnConnect(h)] <= log
                    && (h in handlers ==> handlers[h].state == Established))
    {
      var h := entries[e].eh;
      assert handlers[h].hasOutput;
      OutputKeeps(Value(), e, err, acts);
      BeginKeeps(Value(), e);
      log := log + [Output(e)];
      CancelEvent(e, Mask(false, true));
      if handlers[h].state == Connecting {
        if !FatalConnectError(err) {
          ConnectedKeeps(Value(), h);
        }
        var connected := FinishConnect(h, err);
        if connected {
          Callback(acts);
        }
      } else {
        // Never: the assignment can_send = 1, the only one after initialization, stands here.
        assert false;
      }
    }

    /** One element of the ready list. What is delivered is input for a hang-up, input and output, as far as the element
        has them set; it ends early only when the entry was removed on the way. */
    method DispatchOne(r: Ready, w: World) returns (ghost part: seq<LogItem>)
      requires Valid() && Dispatchable(Value(), r) && Sane(w)
      modifies this
      ensures Valid() && Value() == AfterElement(old(Value()), r, w)
      ensures Evolves(old(Value()), Value(), {r.entry}) && Dispatches(log) == Dispatches(old(log)) + part
      ensures var all := (if r.hangup then [Input(r.entry)] else []) + (if r.readable then [Input(r.entry)] else [])
                         + (if r.writable then [Output(r.entry)] else []);
              part <= all && (Removed(r.entry) !in log ==> part == all)
    {
      ghost var s := Value();
      part := ElementKeeps(s, r, w);
      ghost var _ := InputIfKeeps(s, r.hangup, r, w);
      ghost var _ := InputIfKeeps(InputIf(s, r.hangup, r.entry, w), r.readable, r, w);
      if entries[r.entry].fd == INVALID {
        return;
      }
      if r.hangup {
        HandleInput(r.entry, w.accept(Value()), w.acts(Value()));
      }
      if entries[r.entry].fd == INVALID {
        return;
      }
      if r.readable {
        HandleInput(r.entry, w.accept(Value()), w.acts(Value()));
      }
      if entries[r.entry].fd == INVALID {
        return;
      }
      if r.writable {
        HandleOutput(r.entry, w.soError(Value()), w.acts(Value()));
      }
    }

    /** The dispatch loop over one ready list. Element by element, in order, the handlers get exactly what the
        element asks for, or a beginning of it when the element's entry was removed by then. */
    method Batch(ready: seq<Ready>, w: World) returns (ghost parts: seq<seq<LogItem>>)
      requires Valid() && Reported(Value(), ready) && Sane(w)
      modifies this
      ensures Valid() && Value() == AfterBatch(old(Value()), ready, w)
      ensures Evolves(old(Value()), Value(), EntriesOf(ready))
      ensures Dispatches(log) == Dispatches(old(log)) + Flatten(parts) && |parts| == |ready|
      ensures forall i :: 0 <= i < |ready| ==>
                var r := ready[i];
                var all := (if r.hangup then [Input(r.entry)] else []) + (if r.readable then [Input(r.entry)] else [])
                           + (if r.writable then [Output(r.entry)] else []);
                parts[i] <= all && (Removed(r.entry) !in log ==> parts[i] == all)
    {
      parts := [];
      var i := 0;
      BatchStarts(Value(), ready);
      while i < |ready|
        invariant i <= |ready| && Valid() && Batched(old(Value()), Value(), ready, i, parts)
        invariant Value() == AfterBatch(old(Value()), ready[..i], w)
      {
        assert ready[..i + 1][..i] == ready[..i];
        parts := DispatchNext(old(Value()), ready, i, parts, w);
        i := i + 1;
      }
      BatchEnds(old(Value()), Value(), ready, parts);
    }

    // One round of the loop.
    method DispatchNext(ghost start: State, ready: seq<Ready>, i: nat, ghost parts: seq<seq<LogItem>>, w: World)
        returns (ghost more: seq<seq<LogItem>>)
      requires Valid() && i < |ready| && Batched(start, Value(), ready, i, parts) && Sane(w)
      modifies this
      ensures Valid() && Batched(start, Value(), ready, i + 1, more)
      ensures Value() == AfterElement(old(Value()), ready[i], w)
    {
      ghost var before := Value();
      ghost var part := DispatchOne(ready[i], w);
      BatchStep(start, before, Value(), ready, i, parts, part);
      more := parts + [part];
    }

    // Every parked entry is freed, first removed first.
    method FreeRemoved()
      requires Valid()
      modifies this
      ensures Valid() && Value() == FreedAll(old(Value()))
    {
      while removed != []
        invariant Valid() && FreedAll(Value()) == FreedAll(old(Value()))
        decreases |removed|
      {
        FreeFirst();
      }
    }

    method FreeFirst()
      requires Valid() && removed != []
      modifies this
      ensures Valid() && Value() == FreedFirst(old(Value()))
    {
      FreeKeeps(Value());
      var e := removed[0];
      removed := removed[1..];
      entries := entries - {e};
      log := log + [Freed(e)];
    }

    /** One round of the event loop. The workers run first and may close handlers. An interrupted wait skips
        the rest of the round, so removed entries stay parked; a completed round has freed every one. */
    method Round(plan: Plan) returns (ghost parts: seq<seq<LogItem>>)
      requires Valid() && Honest(plan)
      modifies this
      ensures Valid() && IsRound(Turn(old(Value()), plan, Value(), parts))
    {
      parts := [];
      ActsKeep(Value(), plan.acts);
      Callback(plan.acts);
      if plan.end != Completed {
        return;
      }
      ghost var polled := Value();
      parts := ServeAndFree(plan.poll(Value()), plan.world);
      CompletedRound(old(Value()), plan, polled, Value(), parts);
    }

    // The dispatch of what was reported, and then the free loop.
    method ServeAndFree(ready: seq<Ready>, w: World) returns (ghost parts: seq<seq<LogItem>>)
      requires Valid() && Reported(Value(), ready) && Sane(w)
      modifies this
      ensures Valid() && Value() == FreedAll(AfterBatch(old(Value()), ready, w))
      ensures old(log) <= log && Served(old(log), log, ready, parts) && removed == []
    {
      parts := Batch(ready, w);
      assert Served(old(log), log, ready, parts);
      ServedAndFreed(old(log), log, ready, parts, removed);
      FreedAllIsExact(Value());
      FreeRemoved();
    }

    /** The event loop, for any number of rounds and whatever the kernel, the peers and the callbacks do: one round per
        plan, up to and including the first whose wait fails. The history grows and stays safe, every element that was
        reported was served, in order, and a handler can send exactly when it never met EAGAIN: nothing revives a
        blocked sender. */
    method Run(plans: seq<Plan>) returns (ghost turns: seq<Turn>)
      requires Valid() && forall i :: 0 <= i < |plans| ==> Honest(plans[i])
      modifies this
      ensures Valid() && old(log) <= log && SafeLog(log)
      ensures Trace(turns, old(Value()), Value())
      ensures |turns| <= |plans| && forall i :: 0 <= i < |turns| ==> turns[i].plan == plans[i]
      ensures forall i :: 0 <= i < |turns| - 1 ==> plans[i].end != Failed
      ensures |turns| < |plans| ==> turns != [] && plans[|turns| - 1].end == Failed
      ensures Served(old(log), log, Reports(turns), Parts(turns))
      ensures forall h :: h in handlers ==> (handlers[h].canSend <==> Blocked(h) !in log)
    {
      turns := Rounds(plans);
      RunMeans(turns, plans, old(Value()), Value());
    }

    // The loop.
    method Rounds(plans: seq<Plan>) returns (ghost turns: seq<Turn>)
      requires Valid() && forall i :: 0 <= i < |plans| ==> Honest(plans[i])
      modifies this
      ensures Trace(turns, old(Value()), Value()) && Follows(turns, plans)
      ensures |turns| < |plans| ==> EndsFailed(turns)
    {
      turns := [];
      var i, failed := 0, false;
      while i < |plans| && !failed
        invariant i == |turns| && Trace(turns, old(Value()), Value()) && Follows(turns, plans)
        invariant failed <==> EndsFailed(turns)
      {
        turns := OneMoreRound(old(Value()), turns, plans, i);
        failed := plans[i].end == Failed;
        i := i + 1;
      }
    }

    method OneMoreRound(ghost start: State, ghost turns: seq<Turn>, plans: seq<Plan>, i: nat)
        returns (ghost more: seq<Turn>)
      requires i < |plans| && Honest(plans[i])
      requires i == |turns| && Trace(turns, start, Value()) && Follows(turns, plans)
      requires !EndsFailed(turns)
      modifies this
      ensures |more| == i + 1 && Trace(more, start, Value()) && Follows(more, plans)
      ensures EndsFailed(more) <==> plans[i].end == Failed
    {
      ghost var before := Value();
      ghost var parts := Round(plans[i]);
      ghost var turn := Turn(before, plans[i], Value(), parts);
      TraceSnoc(turns, start, turn);
      FollowsSnoc(turns, plans, turn);
      more := turns + [turn];
    }
  }

  // ---------- whole runs ----------

  // The elements reported in a round that begins in s.
  function Report(s: State, plan: Plan): seq<Ready> {
    if plan.end == Completed then plan.poll(AfterActs(s, plan.acts)) else []
  }

  /** A round from s to t, which is determined by the plan: a wait that does not complete leaves what the workers did;
      a completed one serves what was reported in the state they left and frees every removed entry. */
  ghost predicate RoundStep(s: State, plan: Plan, t: State, parts: seq<seq<LogItem>>) {
    && t == AfterRound(s, plan)
    && s.log <= t.log && Served(s.log, t.log, Report(s, plan), parts)
    && (plan.end != Completed ==> t == AfterActs(s, plan.acts))
    && (plan.end == Completed ==> t.removed == [] && forall e: nat :: Removed(e) in t.log ==> Freed(e) in t.log)
  }

  // One round of a run: where it began, what the environment did, where it ended and what was delivered.
  datatype Turn = Turn(start: State, plan: Plan, end: State, parts: seq<seq<LogItem>>)

  // A run from s to t, round by round, the invariant holding in between.
  ghost predicate Trace(turns: seq<Turn>, s: State, t: State) {
    && Inv(t)
    && if turns == [] then s == t
       else
         var x := turns[|turns| - 1];
         Trace(turns[..|turns| - 1], s, x.start) && IsRound(x) && x.end == t
  }

  ghost predicate IsRound(x: Turn) {
    match x
    case Turn(start, plan, end, parts) => RoundStep(start, plan, end, parts)
  }

  // One round per plan, up to a wait that fails.
  ghost predicate Follows(turns: seq<Turn>, plans: seq<Plan>) {
    && |turns| <= |plans|
    && forall i :: 0 <= i < |turns| ==> turns[i].plan == plans[i] && (i + 1 < |turns| ==> plans[i].end != Failed)
  }

  // The last wait failed.
  ghost predicate EndsFailed(turns: seq<Turn>) { turns != [] && turns[|turns| - 1].plan.end == Failed }

  lemma FollowsSnoc(turns: seq<Turn>, plans: seq<Plan>, x: Turn)
    requires Follows(turns, plans) && |turns| < |plans| && x.plan == plans[|turns|] && !EndsFailed(turns)
    ensures Follows(turns + [x], plans) && (EndsFailed(turns + [x]) <==> plans[|turns|].end == Failed)
  {
  }

  // Everything reported in a run, in order, and what each element was delivered.
  function Reports(turns: seq<Turn>): seq<Ready> {
    if turns == [] then []
    else
      var x := turns[|turns| - 1];
      Reports(turns[..|turns| - 1]) + Report(x.start, x.plan)
  }

  function Parts(turns: seq<Turn>): seq<seq<LogItem>> {
    if turns == [] then [] else Parts(turns[..|turns| - 1]) + turns[|turns| - 1].parts
  }

  lemma TraceSnoc(turns: seq<Turn>, s: State, x: Turn)
    requires Trace(turns, s, x.start) && IsRound(x) && Inv(x.end)
    ensures Trace(turns + [x], s, x.end)
  {
    assert (turns + [x])[..|turns|] == turns;
  }

  lemma ServedAndFreed(before: seq<LogItem>, log: seq<LogItem>, ready: seq<Ready>, parts: seq<seq<LogItem>>,
                       q: seq<nat>)
    requires Served(before, log, ready, parts)
    ensures Served(before, log + Frees(q), ready, parts)
  {
    DispatchesFrees(log, q);
    FitsLater(parts, ready, log, log + Frees(q));
  }

  // What the workers do in front of a completed wait delivers nothing.
  lemma CompletedRound(s: State, plan: Plan, u: State, t: State, parts: seq<seq<LogItem>>)
    requires u == AfterActs(s, plan.acts) && plan.end == Completed && Undisturbed(s, u) && u.log <= t.log
    requires t == FreedAll(AfterBatch(u, plan.poll(u), plan.world)) && Served(u.log, t.log, plan.poll(u), parts)
    requires t.removed == [] && LogAgrees(t)
    ensures RoundStep(s, plan, t, parts)
  {
  }

  /** Over a whole run, what the handlers were delivered is, element by element and in order, what was reported. */
  lemma {:induction false} TraceServes(turns: seq<Turn>, s: State, t: State)
    requires Trace(turns, s, t)
    ensures s.log <= t.log && Served(s.log, t.log, Reports(turns), Parts(turns))
  {
    if turns != [] {
      var front, x := turns[..|turns| - 1], turns[|turns| - 1];
      TraceServes(front, s, x.start);
      ServedTwice(s.log, x.start.log, t.log, Reports(front), Parts(front), Report(x.start, x.plan), x.parts);
    }
  }

  lemma RunMeans(turns: seq<Turn>, plans: seq<Plan>, s: State, t: State)
    requires Trace(turns, s, t) && Follows(turns, plans) && (|turns| < |plans| ==> EndsFailed(turns))
    ensures Inv(t) && s.log <= t.log && SafeLog(t.log) && Served(s.log, t.log, Reports(turns), Parts(turns))
    ensures |turns| <= |plans| && forall i :: 0 <= i < |turns| ==> turns[i].plan == plans[i]
    ensures forall i :: 0 <= i < |turns| - 1 ==> plans[i].end != Failed
    ensures |turns| < |plans| ==> turns != [] && plans[|turns| - 1].end == Failed
    ensures forall h :: h in t.handlers ==> (t.handlers[h].canSend <==> Blocked(h) !in t.log)
  {
    TraceServes(turns, s, t);
  }

  /** From one log to a later one, what was delivered is, element by element and in order, what the reported
      elements asked for, or a beginning of it when the element's entry was removed. */
  ghost predicate Served(before: seq<LogItem>, after: seq<LogItem>, ready: seq<Ready>, parts: seq<seq<LogItem>>) {
    && Dispatches(after) == Dispatches(before) + Flatten(parts)
    && AllFit(parts, ready, after)
  }

  lemma ServedTwice(before: seq<LogItem>, mid: seq<LogItem>, after: seq<LogItem>, ready: seq<Ready>,
                    parts: seq<seq<LogItem>>, nextReady: seq<Ready>, nextParts: seq<seq<LogItem>>)
    requires Served(before, mid, ready, parts) && Served(mid, after, nextReady, nextParts) && mid <= after
    ensures Served(before, after, ready + nextReady, parts + nextParts)
  {
    FitsLater(parts, ready, mid, after);
    AllFitTogether(parts, ready, nextParts, nextReady, after);
    FlattenAppend(parts, nextParts);
    Regroup(Dispatches(before), Flatten(parts), Flatten(nextParts));
  }

  function EntriesOf(ready: seq<Ready>): set<nat> { set r | r in ready :: r.entry }

  predicate AllFit(parts: seq<seq<LogItem>>, ready: seq<Ready>, log: seq<LogItem>) {
    |parts| == |ready| && forall i :: 0 <= i < |parts| ==> Fits(parts[i], ready[i], log)
  }

  lemma FitsLater(parts: seq<seq<LogItem>>, ready: seq<Ready>, log: seq<LogItem>, more: seq<LogItem>)
    requires AllFit(parts, ready, log) && log <= more
    ensures AllFit(parts, ready, more)
  {
  }

  lemma AllFitTogether(parts: seq<seq<LogItem>>, ready: seq<Ready>, nextParts: seq<seq<LogItem>>,
                       nextReady: seq<Ready>, log: seq<LogItem>)
    requires AllFit(parts, ready, log) && AllFit(nextParts, nextReady, log)
    ensures AllFit(parts + nextParts, ready + nextReady, log)
  {
    var p, r, n := parts + nextParts, ready + nextReady, |parts|;
    forall i | 0 <= i < |p|
      ensures Fits(p[i], r[i], log)
    {
      if i < n {
        assert p[i] == parts[i] && r[i] == ready[i];
      } else {
        assert p[i] == nextParts[i - n] && r[i] == nextReady[i - n];
      }
    }
  }

  // A batch that started in s has dispatched ready[..i] and stands in t.
  ghost predicate Batched(s: State, t: State, ready: seq<Ready>, i: nat, parts: seq<seq<LogItem>>) {
    && i <= |ready|
    && RemovedAgree(s) && DistinctEntries(ready)
    && Evolves(s, t, EntriesOf(ready))
    && (forall j :: i <= j < |ready| ==> Dispatchable(t, ready[j]))
    && Served(s.log, t.log, ready[..i], parts)
  }

  lemma BatchStarts(s: State, ready: seq<Ready>)
    requires Inv(s) && Reported(s, ready)
    ensures Batched(s, s, ready, 0, [])
  {
    forall j | 0 <= j < |ready|
      ensures Dispatchable(s, ready[j])
    {
      ReportedIsDispatchable(s, ready, j);
    }
  }

  lemma BatchEnds(s: State, t: State, ready: seq<Ready>, parts: seq<seq<LogItem>>)
    requires Batched(s, t, ready, |ready|, parts)
    ensures ready[..|ready|] == ready && Evolves(s, t, EntriesOf(ready))
    ensures Dispatches(t.log) == Dispatches(s.log) + Flatten(parts) && |parts| == |ready|
    ensures forall i :: 0 <= i < |ready| ==>
              var r := ready[i];
              var all := (if r.hangup then [Input(r.entry)] else []) + (if r.readable then [Input(r.entry)] else [])
                         + (if r.writable then [Output(r.entry)] else []);
              parts[i] <= all && (Removed(r.entry) !in t.log ==> parts[i] == all)
  {
    assert ready[..|ready|] == ready;
    assert forall i :: 0 <= i < |ready| ==> Fits(parts[i], ready[i], t.log);
  }

  lemma {:induction false} BatchStep(s: State, t: State, u: State, ready: seq<Ready>, i: nat,
                                     parts: seq<seq<LogItem>>, part: seq<LogItem>)
    requires Batched(s, t, ready, i, parts) && i < |ready|
    requires Evolves(t, u, {ready[i].entry})
    requires Dispatches(u.log) == Dispatches(t.log) + part && Fits(part, ready[i], u.log)
    ensures Batched(s, u, ready, i + 1, parts + [part])
  {
    assert ready[i] in ready;
    EvolvesTwice(s, t, u, EntriesOf(ready), {ready[i].entry}, EntriesOf(ready));
    RestDispatchable(t, u, ready, i);
    assert Served(t.log, u.log, [ready[i]], [part]) by {
      assert Flatten([part]) == part;
    }
    ServedTwice(s.log, t.log, u.log, ready[..i], parts, [ready[i]], [part]);
    assert ready[..i + 1] == ready[..i] + [ready[i]];
  }

  lemma RestDispatchable(t: State, u: State, ready: seq<Ready>, i: nat)
    requires i < |ready| && Evolves(t, u, {ready[i].entry})
    requires DistinctEntries(ready)
    requires forall j :: i <= j < |ready| ==> Dispatchable(t, ready[j])
    ensures forall j :: i <= j < |ready| ==> ready[j].entry in u.entries
    ensures forall j :: i < j < |ready| ==> Dispatchable(u, ready[j])
  {
    forall j | i < j < |ready|
      ensures Dispatchable(u, ready[j])
    {
      DispatchableStays(t, u, {ready[i].entry}, ready[j]);
    }
  }

  // ---------- single rounds ----------

  // A round in which the workers do nothing and the kernel reports one element.
  ghost predicate ReportsOnly(s: State, plan: Plan, r: Ready) {
    plan.acts == [] && plan.end == Completed && plan.poll(s) == [r]
  }

  lemma RoundOfOne(s: State, plan: Plan, r: Ready)
    requires ReportsOnly(s, plan, r)
    ensures AfterRound(s, plan) == FreedAll(AfterElement(s, r, plan.world))
  {
    assert [r][..0] == [];
    assert AfterBatch(s, [r], plan.world) == AfterElement(AfterBatch(s, [], plan.world), r, plan.world);
  }

  /** A round in which a connecting handler becomes writable. If its socket carries one of the seven errors, it is still
      connecting, has not heard on_connect and waits for writability no more: it will never be connected. Otherwise
      it is established, unless its own callback closed it, and has heard on_connect right after the event. */
  lemma ConnectRound(s: State, plan: Plan, e: nat)
    requires Inv(s) && Live(s, e) && s.entries[e].mask.write && ReportsOnly(s, plan, Ready(e, false, false, true))
    ensures var t, h, err := AfterRound(s, plan), s.entries[e].eh, plan.world.soError(s);
            && (err in {111, 104, 110, 113, 101, 100, 22} ==>
                  && h in t.handlers && t.handlers[h].state == Connecting && OnConnect(h) !in t.log
                  && e in t.entries && !t.entries[e].mask.write)
            && (err !in {111, 104, 110, 113, 101, 100, 22} ==>
                  && s.log + [Output(e), OnConnect(h)] <= t.log
                  && (h in t.handlers ==> t.handlers[h].state == Established))
  {
    var r, err := Ready(e, false, false, true), plan.world.soError(s);
    var u := AfterOutput(s, e, err, plan.world.acts(s));
    RoundOfOne(s, plan, r);
    assert AfterElement(s, r, plan.world) == u;
    OutputKeeps(s, e, err, plan.world.acts(s));
    FreedAllIsExact(u);
    if err in {111, 104, 110, 113, 101, 100, 22} {
      FatalRound(s, u, FreedAll(u), e);
    }
  }

  // A handler that is still connecting, after the free loop.
  lemma FatalRound(s: State, u: State, t: State, e: nat)
    requires Inv(s) && Inv(u) && Live(s, e) && s.handlers[s.entries[e].eh].state == Connecting
    requires u.handlers == s.handlers && u.log == s.log + [Output(e)] && e in u.entries && !u.entries[e].mask.write
    requires t.handlers == u.handlers && t.log == u.log + Frees(u.removed) && t == FreedAll(u)
    ensures var h := s.entries[e].eh;
            && h in t.handlers && t.handlers[h].state == Connecting && OnConnect(h) !in t.log
            && e in t.entries && !t.entries[e].mask.write
  {
    var h := s.entries[e].eh;
    assert OnConnect(h) !in u.log;
    assert OnConnect(h) !in Frees(u.removed);
    LiveEntriesStay(u, e);
  }

  lemma {:induction false} LiveEntriesStay(s: State, e: nat)
    requires e in s.entries && e !in s.removed
    ensures e in FreedAll(s).entries && FreedAll(s).entries[e] == s.entries[e]
    decreases |s.removed|
  {
    if s.removed != [] {
      LiveEntriesStay(FreedFirst(s), e);
    }
  }

  /** A round in which an established handler becomes readable: its callback runs, once. */
  lemma ReceiveRound(s: State, plan: Plan, e: nat)
    requires Inv(s) && Live(s, e) && s.handlers[s.entries[e].eh].state == Established
    requires ReportsOnly(s, plan, Ready(e, false, true, false))
    ensures AfterRound(s, plan) == FreedAll(AfterActs(s.(log := s.log + [Input(e)]), plan.world.acts(s)))
  {
    RoundOfOne(s, plan, Ready(e, false, true, false));
  }

  /** A round in which a listener becomes readable: nothing changes but the history and what was parked when accept
      fails, nor for the handlers when on_accept declines; otherwise there is one more handler, established on the new
      descriptor, able to send, and its entry waits for input. */
  lemma AcceptRound(s: State, plan: Plan, e: nat)
    requires Inv(s) && Live(s, e) && s.handlers[s.entries[e].eh].state == Listening
    requires ReportsOnly(s, plan, Ready(e, false, true, false))
    ensures var t, fd, h := AfterRound(s, plan), plan.world.accept(s).fd, s.nextPtr;
            if fd != -1 && plan.world.accept(s).agreed then
              && t.handlers == s.handlers[h := Handler(Established, fd, h + 1, true, true)]
              && t.kernel == s.kernel[fd := Interest(h + 1, Mask(true, false))]
              && t.nextPtr == h + 2
            else t.handlers == s.handlers && t.kernel == s.kernel && t.nextPtr == (if fd == -1 then h else h + 1)
  {
    AcceptedRound(s, plan, e);
    AcceptedMeans(s, e, plan.world.accept(s));
  }

  lemma AcceptedMeans(s: State, e: nat, offer: Offer)
    ensures var t, fd, h := FreedAll(AfterAccept(s.(log := s.log + [Input(e)]), offer)), offer.fd, s.nextPtr;
            if fd != -1 && offer.agreed then
              && t.handlers == s.handlers[h := Handler(Established, fd, h + 1, true, true)]
              && t.kernel == s.kernel[fd := Interest(h + 1, Mask(true, false))]
              && t.nextPtr == h + 2
            else t.handlers == s.handlers && t.kernel == s.kernel && t.nextPtr == (if fd == -1 then h else h + 1)
  {
    var begun := s.(log := s.log + [Input(e)]);
    AcceptMeans(begun, offer);
    FreedAllIsExact(AfterAccept(begun, offer));
  }

  lemma AcceptedRound(s: State, plan: Plan, e: nat)
    requires Inv(s) && Live(s, e) && s.handlers[s.entries[e].eh].state == Listening
    requires ReportsOnly(s, plan, Ready(e, false, true, false))
    ensures AfterRound(s, plan) == FreedAll(AfterAccept(s.(log := s.log + [Input(e)]), plan.world.accept(s)))
  {
    RoundOfOne(s, plan, Ready(e, false, true, false));
  }

  // An accepted connection on a fresh stack.
  lemma FirstConnection(fd: int)
    requires fd != INVALID
    ensures var s := AfterAccept(EMPTY, Offer(fd, true));
            && Inv(s) && s.handlers == map[0 := Handler(Established, fd, 1, true, true)]
            && s.entries == map[1 := Entry(Mask(true, false), fd, 0)]
            && s.kernel == map[fd := Interest(1, Mask(true, false))]
            && s.removed == [] && s.log == [] && s.nextPtr == 2
  {
    EmptyIsValid();
    AcceptKeeps(EMPTY, Offer(fd, true));
    AcceptMeans(EMPTY, Offer(fd, true));
  }

  lemma EmptyIsValid()
    ensures Inv(EMPTY)
  {
  }

  /** A sender that blocks, on that connection or any other: its next send is not even tried. */
  lemma BlockedSenderStaysSilent(s: State, h: nat)
    requires h in s.handlers && s.handlers[h].canSend
    ensures var t := AfterActs(s, [Send(h, true), Send(h, false)]);
            h in t.handlers && !t.handlers[h].canSend && t.log == s.log + [Blocked(h)]
  {
    var acts := [Send(h, true), Send(h, false)];
    assert acts[..1] == [Send(h, true)] && [Send(h, true)][..0] == [];
    assert AfterActs(s, acts[..1]) == ActOn(AfterActs(s, []), Send(h, true));
    assert AfterActs(s, acts) == ActOn(AfterActs(s, acts[..1]), acts[1]);
  }
}
