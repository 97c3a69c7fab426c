/** The worker lists of 04-30_nwchecker_refactor/nwc_looper.c, on the heap lists of list.h:
    registration, cancellation with deferred free, and a dispatch whose callbacks may cancel workers. */
module WorkerLooper {
  import opened Sequences
  import opened Words
  import opened RingList

  datatype Worker = Worker(userdata: Option<nat>, workerDo: Option<nat>)

  type Handle = ListHead<Worker>

  function Members(s: seq<Handle>): set<Handle> { set w | w in s }

  // s without the workers in gone, in order.
  function Minus(s: seq<Handle>, gone: set<Handle>): (left: seq<Handle>)
    ensures |left| <= |s|
  {
    Except(s, w => w in gone)
  }

  // A cancelled worker goes to the tail of the removed ring, also when it is on that ring already.
  function Parked(removed: seq<Handle>, w: Handle): seq<Handle> { Minus(removed, {w}) + [w] }

  function AllParked(removed: seq<Handle>, ws: seq<Handle>): seq<Handle> {
    if ws == [] then removed else Parked(AllParked(removed, ws[..|ws| - 1]), ws[|ws| - 1])
  }

  class Looper {
    const workerHdr: Handle
    const removedHdr: Handle
    ghost var live: seq<Handle>
    ghost var removed: seq<Handle>
    ghost var freed: set<Handle>

    /** Two disjoint rings: registered workers have a callback, cancelled ones have none,
        and no freed worker is on either. */
    ghost predicate Valid()
      reads this, workerHdr, removedHdr, live, removed
    {
      && Ring(workerHdr, live) && Ring(removedHdr, removed)
      && workerHdr != removedHdr && workerHdr !in removed && removedHdr !in live
      && Members(live) !! Members(removed)
      && freed !! Members(live) + Members(removed)
      && (forall i :: 0 <= i < |live| ==> live[i].entry.workerDo.Some?)
      && (forall i :: 0 <= i < |removed| ==> removed[i].entry == Worker(None, None))
    }

    ghost function All(): set<Handle>
      reads this
    {
      Members(live) + Members(removed)
    }

    constructor ()
      ensures Valid() && live == [] && removed == [] && freed == {}
      ensures fresh(workerHdr) && fresh(removedHdr)
    {
      workerHdr := new ListHead(Worker(None, None));
      removedHdr := new ListHead(Worker(None, None));
      live, removed, freed := [], [], {};
      new;
      InitListHead(workerHdr);
      InitListHead(removedHdr);
    }

    method RegisterWorker(userdata: nat, workerDo: nat) returns (w: Handle)
      requires Valid()
      modifies this`live, workerHdr, live
      ensures Valid() && fresh(w)
      ensures live == old(live) + [w]
      ensures w.entry == Worker(Some(userdata), Some(workerDo))
      ensures forall x :: x in old(live) ==> x.entry == old(x.entry)
    {
      w := new ListHead(Worker(Some(userdata), Some(workerDo)));
      HeadLinks(workerHdr, live);
      ListAddTail(w, workerHdr, live);
      live := live + [w];
    }

    /** nwc_looper_cancel_worker: list_del takes the worker off whichever ring it is on, and then it waits,
        without a callback, at the tail of the removed ring. */
    method CancelWorker(w: Handle)
      requires Valid() && w in All()
      modifies this`live, this`removed, workerHdr, removedHdr, All()
      ensures Valid() && All() == old(All())
      ensures live == Minus(old(live), {w}) && removed == Minus(old(removed), {w}) + [w]
      ensures forall x :: x in live ==> x in old(live) && x.entry == old(x.entry)
    {
      ghost var k;
      if w.entry.workerDo != None {
        k :| 0 <= k < |live| && live[k] == w;
        MinusOne(live, k);
        MinusNone(removed, {w});
        CancelLive(w, k);
      } else {
        k :| 0 <= k < |removed| && removed[k] == w;
        MinusOne(removed, k);
        MinusNone(live, {w});
        CancelParked(w, k);
      }
    }

    method CancelLive(w: Handle, ghost k: nat)
      requires Valid() && k < |live| && live[k] == w
      modifies this`live, this`removed, workerHdr, removedHdr, live, removed
      ensures Valid() && live == Without(old(live), k) && removed == old(removed) + [w]
      ensures All() == old(All())
      ensures forall x :: x in live ==> x in old(live) && x.entry == old(x.entry)
    {
      NodeLinks(workerHdr, live, k);
      ListDel(w, workerHdr, live, k);
      MembersWithout(live, k);
      MembersSnoc(removed, w);
      assert forall x :: x in Without(live, k) ==> x in live;
      live := Without(live, k);
      w.entry := Worker(None, None);
      Park(w);
    }

    method CancelParked(w: Handle, ghost k: nat)
      requires Valid() && k < |removed| && removed[k] == w
      modifies this`removed, removedHdr, removed
      ensures Valid() && removed == Without(old(removed), k) + [w]
      ensures All() == old(All())
      ensures forall x :: x in live ==> x.entry == old(x.entry)
    {
      NodeLinks(removedHdr, removed, k);
      ListDel(w, removedHdr, removed, k);
      MembersWithout(removed, k);
      MembersSnoc(Without(removed, k), w);
      assert forall x :: x in Without(removed, k) ==> x in removed;
      removed := Without(removed, k);
      w.entry := Worker(None, None);
      Park(w);
    }

    // A worker on neither ring.
    ghost predicate Loose(w: Handle)
      reads this
    {
      w != workerHdr && w != removedHdr && w !in live && w !in removed && w !in freed
    }

    method Park(w: Handle)
      requires Valid() && Loose(w) && w.entry == Worker(None, None)
      modifies this`removed, removedHdr, w`next, w`prev, removed
      ensures Valid() && removed == old(removed) + [w]
      ensures forall x :: x in live ==> x.entry == old(x.entry)
    {
      HeadLinks(removedHdr, removed);
      ListAddTail(w, removedHdr, removed);
      MembersSnoc(removed, w);
      removed := removed + [w];
    }

    // A callback cancels, one after the other, the workers it names.
    method RunCallback(cancels: seq<Handle>)
      requires Valid() && Members(cancels) <= All()
      modifies this`live, this`removed, workerHdr, removedHdr, All()
      ensures Valid() && All() == old(All())
      ensures live == Minus(old(live), Members(cancels)) && removed == AllParked(old(removed), cancels)
      ensures forall x :: x in live ==> x in old(live) && x.entry == old(x.entry)
      decreases |cancels|
    {
      if cancels == [] {
        MinusNone(live, Members(cancels));
      } else {
        var last := |cancels| - 1;
        assert cancels == cancels[..last] + [cancels[last]];
        MembersSnoc(cancels[..last], cancels[last]);
        MinusMinus(live, Members(cancels[..last]), {cancels[last]});
        RunCallback(cancels[..last]);
        CancelWorker(cancels[last]);
      }
    }

    // The registered workers still have the callback and userdata recorded in was.
    ghost predicate Entries(was: map<Handle, Worker>)
      reads this, live
    {
      forall w :: w in live ==> w in was && w.entry == was[w]
    }

    // Callbacks only name workers that were registered and not freed.
    ghost predicate Known(cancels: Handle -> seq<Handle>)
      reads this
    {
      forall w :: w in live ==> Members(cancels(w)) <= All()
    }

    // A dispatch on its way along the live ring.
    ghost predicate Ahead(cancels: Handle -> seq<Handle>, p: Progress, pos: ListHead?<Worker>)
      reads this
    {
      Stands(live, p.rest, workerHdr, pos) && Known(cancels)
    }

    // A dispatch under way: start is how it began.
    ghost predicate Underway(start: Start, cancels: Handle -> seq<Handle>, p: Progress, early: seq<Handle>,
                             ahead: seq<Handle>, pos: ListHead?<Worker>)
      reads this, live
    {
      var total := AllParked(start.parked, CancelledBy(p.visited, cancels));
      match p.stray
      case None =>
        Ran(start, cancels, p) && Ahead(cancels, p, pos) && removed == total && early == [] && ahead == []
      case Some(first) =>
        Ran(start, cancels, p) && Detour(first, total, removed, early, ahead, removedHdr, pos)
    }

    // What a dispatch has run so far.
    ghost predicate Ran(start: Start, cancels: Handle -> seq<Handle>, p: Progress)
      reads this, live
    {
      && live == Minus(start.live, Members(CancelledBy(p.visited, cancels)))
      && Midway(start.live, start.was, p, cancels) && Entries(start.was)
    }

    /** nwc_looper_dispatch_worker. cancels(w) is what the callback of w cancels. The dispatch runs exactly the
        workers RunOrder names, each with the callback and userdata it was registered with, and when no callback
        cancels the worker right behind it that is all. Otherwise it strays onto the removed ring: there it frees
        the stray worker, which never ran, and every worker parked behind it, and ends up on the header of the
        removed ring. The program does not compare with that header and goes on to take it for a worker. */
    method Dispatch(cancels: Handle -> seq<Handle>, ghost was: map<Handle, Worker>)
        returns (visited: seq<Handle>, calls: seq<Worker>, early: seq<Handle>, end: Handle)
      requires Valid() && Entries(was) && Known(cancels)
      modifies this`live, this`removed, this`freed, workerHdr, removedHdr, All()
      ensures Valid() && Entries(was)
      ensures visited == RunOrder(old(live), cancels)
      ensures |calls| == |visited| && forall i :: 0 <= i < |calls| ==> visited[i] in was && calls[i] == was[visited[i]]
      ensures live == Minus(old(live), Members(CancelledBy(visited, cancels)))
      ensures forall w :: w in live ==> w in old(live) && forall i :: 0 <= i < |visited| ==> w !in cancels(visited[i])
      ensures forall w :: w in old(live) ==> w in live || exists i :: 0 <= i < |visited| && w in cancels(visited[i])
      ensures removed + early == AllParked(old(removed), CancelledBy(visited, cancels))
      ensures freed == old(freed) + Members(early)
      ensures end == if Safe(old(live), cancels) then workerHdr else removedHdr
      ensures if Safe(old(live), cancels) then early == []
              else early != [] && Stray(old(live), cancels) == Some(early[0])
    {
      ghost var start := Start(live, removed, was);
      ghost var p, ahead;
      visited, calls, early, end, p, ahead := Traverse(cancels, start);
      UnderwayEnds(start, cancels, p, early, ahead, end);
      forall w: Handle | w in live || w in start.live
        ensures w in live <==> w in start.live && forall i :: 0 <= i < |visited| ==> w !in cancels(visited[i])
      {
        LeftByAll(start.live, visited, cancels, w);
      }
    }

    // The loop. The program only tests for workerHdr.
    method Traverse(cancels: Handle -> seq<Handle>, ghost start: Start)
        returns (visited: seq<Handle>, calls: seq<Worker>, early: seq<Handle>, pos: Handle,
                 ghost p: Progress, ghost ahead: seq<Handle>)
      requires Valid() && Entries(start.was) && Known(cancels)
      requires start.live == live && start.parked == removed
      modifies this`live, this`removed, this`freed, workerHdr, removedHdr, All()
      ensures Valid() && (pos == workerHdr || pos == removedHdr)
      ensures Underway(start, cancels, p, early, ahead, pos) && p.visited == visited && p.calls == calls
      ensures freed == old(freed) + Members(early)
    {
      ghost var freedBefore := freed;
      visited, calls, early := [], [], [];
      p, ahead := Progress(live, [], [], None), [];
      UnderwayStarts(start, cancels);
      pos := workerHdr.next;
      while pos != workerHdr && pos != removedHdr
        invariant Valid() && All() <= old(All())
        invariant Underway(start, cancels, p, early, ahead, pos) && p.visited == visited && p.calls == calls
        invariant freed == freedBefore + Members(early)
        decreases if p.stray == None then 1 else 0, |p.rest|, |ahead|
      {
        var w, entry := pos, pos.entry;
        var ran;
        pos, ran, p, ahead := DispatchOne(start, freedBefore, cancels, p, early, ahead, w);
        if ran {
          visited, calls := visited + [w], calls + [entry];
        } else {
          early := early + [w];
        }
      }
    }

    lemma UnderwayStarts(start: Start, cancels: Handle -> seq<Handle>)
      requires Valid() && Entries(start.was) && Known(cancels)
      requires start.live == live && start.parked == removed
      ensures Underway(start, cancels, Progress(live, [], [], None), [], [], workerHdr.next)
    {
      MidwayStarts(live, start.was, cancels);
      HeadLinks(workerHdr, live);
    }

    // What a dispatch has done when it stands on one of the headers.
    lemma UnderwayEnds(start: Start, cancels: Handle -> seq<Handle>, p: Progress, early: seq<Handle>,
                       ahead: seq<Handle>, pos: ListHead?<Worker>)
      requires Valid() && Underway(start, cancels, p, early, ahead, pos)
      requires pos == workerHdr || pos == removedHdr
      ensures Ran(start, cancels, p) && p.visited == RunOrder(start.live, cancels)
      ensures removed + early == AllParked(start.parked, CancelledBy(p.visited, cancels))
      ensures pos == if Safe(start.live, cancels) then workerHdr else removedHdr
      ensures if Safe(start.live, cancels) then early == []
              else early != [] && Stray(start.live, cancels) == Some(early[0])
    {
      assert p.rest == [];
      if p.stray != None {
        DetourEnds(p.stray.value, AllParked(start.parked, CancelledBy(p.visited, cancels)), removed, early, ahead,
                   removedHdr);
      } else {
        assert removed + [] == removed;
      }
    }

    // One round, for a worker with or without a callback.
    method DispatchOne(ghost start: Start, ghost freedBefore: set<Handle>, cancels: Handle -> seq<Handle>,
                       ghost p: Progress, ghost early: seq<Handle>, ghost ahead: seq<Handle>, pos: Handle)
        returns (n: Handle, ran: bool, ghost next: Progress, ghost more: seq<Handle>)
      requires Valid() && Underway(start, cancels, p, early, ahead, pos)
      requires freed == freedBefore + Members(early) && pos != workerHdr && pos != removedHdr
      modifies this`live, this`removed, this`freed, workerHdr, removedHdr, All()
      ensures Valid() && All() <= old(All())
      ensures Underway(start, cancels, next, if ran then early else early + [pos], more, n)
      ensures freed == freedBefore + Members(if ran then early else early + [pos])
      ensures next.visited == if ran then p.visited + [pos] else p.visited
      ensures next.calls == if ran then p.calls + [old(pos.entry)] else p.calls
      ensures if ran then p.stray == None && (next.stray == None ==> |next.rest| < |p.rest|)
              else p.stray != None && next == p && |more| < |ahead|
    {
      if pos.entry.workerDo != None {
        ran := true;
        n, next, more := VisitWorker(start, cancels, p, pos);
      } else {
        ran, next, more := false, p, ahead[1..];
        MembersSnoc(early, pos);
        n := FreeStray(p.stray.value, AllParked(start.parked, CancelledBy(p.visited, cancels)), early, ahead, pos);
        assert Entries(start.was);
      }
    }

    // The successor is saved, then the callback runs.
    method VisitWorker(ghost start: Start, cancels: Handle -> seq<Handle>, ghost p: Progress, pos: Handle)
        returns (n: Handle, ghost next: Progress, ghost ahead: seq<Handle>)
      requires Valid() && Underway(start, cancels, p, [], [], pos) && p.stray == None && pos != workerHdr
      modifies this`live, this`removed, workerHdr, removedHdr, All()
      ensures Valid() && All() == old(All()) && Underway(start, cancels, next, [], ahead, n)
      ensures next.visited == p.visited + [pos] && next.calls == p.calls + [old(pos.entry)]
      ensures next.stray == None ==> |next.rest| < |p.rest|
    {
      Advancing(live, start.live, start.was, p, cancels, workerHdr, pos);
      NodeLinks(workerHdr, live, |live| - |p.rest|);
      n := pos.next;
      next := Advance(p, cancels, start.was[pos]);
      CancelledStep(start.live, start.parked, p.visited, pos, cancels);
      AllParkedMembers(removed, cancels(pos));
      ghost var left, parkedNow := Minus(live, Members(cancels(pos))), AllParked(removed, cancels(pos));
      assert left == Minus(start.live, Members(CancelledBy(next.visited, cancels)));
      RunCallback(cancels(pos));
      assert live == left && removed == parkedNow;
      assert Entries(start.was) && Known(cancels);
      ahead := [];
      if next.stray != None {
        assert n in Members(removed);
        ahead := DetourStarts(removed, removedHdr, n);
      }
    }

    // The branch for a worker without callback: list_del and free, on the removed ring.
    method FreeStray(ghost first: Handle, ghost total: seq<Handle>,
                     ghost early: seq<Handle>, ghost ahead: seq<Handle>, pos: Handle) returns (n: Handle)
      requires Valid() && Detour(first, total, removed, early, ahead, removedHdr, pos) && pos != removedHdr
      modifies this`removed, this`freed, removedHdr, Members(removed)
      ensures Valid() && All() <= old(All()) && freed == old(freed) + {pos}
      ensures forall w :: w in live ==> w.entry == old(w.entry)
      ensures ahead != [] && Detour(first, total, removed, early + [pos], ahead[1..], removedHdr, n)
    {
      ghost var before := removed;
      ghost var k := DetourStands(first, total, removed, early, ahead, removedHdr, pos);
      n := FreeParked(pos, k);
      DetourStep(first, total, before, early, ahead, removedHdr, pos, removed, n);
    }

    // list_del and free of a parked worker; its successor was saved before.
    method FreeParked(pos: Handle, ghost k: nat) returns (n: Handle)
      requires Valid() && k < |removed| && removed[k] == pos
      modifies this`removed, this`freed, removedHdr, Members(removed)
      ensures Valid() && removed == Without(old(removed), k) && All() <= old(All())
      ensures pos !in old(freed) && freed == old(freed) + {pos}
      ensures forall w :: w in live ==> w.entry == old(w.entry)
      ensures n == if k == |removed| then removedHdr else removed[k]
    {
      NodeLinks(removedHdr, removed, k);
      MembersWithout(removed, k);
      n := pos.next;
      assert n == removedHdr || n in Members(removed);
      ListDel(pos, removedHdr, removed, k);
      removed, freed := Without(removed, k), freed + {pos};
    }

    // nwc_looper_delete_removed_worker: every cancelled worker is freed, once, in the order of cancellation.
    method DeleteRemoved() returns (order: seq<Handle>)
      requires Valid()
      modifies this`removed, this`freed, removedHdr, Members(removed)
      ensures Valid() && removed == []
      ensures order == old(removed) && freed == old(freed) + Members(old(removed))
      ensures old(freed) !! Members(old(removed))
    {
      order := [];
      HeadLinks(removedHdr, removed);
      var pos := removedHdr.next;
      while pos != removedHdr
        invariant Valid() && |order| + |removed| == |old(removed)|
        invariant order == old(removed)[..|order|] && removed == old(removed)[|order|..]
        invariant freed == old(freed) + Members(order)
        invariant pos == if removed == [] then removedHdr else removed[0]
        decreases |removed|
      {
        var w: Handle := pos;
        MembersSnoc(order, w);
        order := order + [w];
        pos := FreeFirst(w);
      }
    }

    method FreeFirst(pos: Handle) returns (n: Handle)
      requires Valid() && removed != [] && removed[0] == pos
      modifies this`removed, this`freed, removedHdr, Members(removed)
      ensures Valid() && removed == old(removed)[1..]
      ensures pos !in old(freed) && freed == old(freed) + {pos}
      ensures n == if removed == [] then removedHdr else removed[0]
    {
      assert Without(removed, 0) == removed[1..];
      n := FreeParked(pos, 0);
    }

    /** nwc_connection_send: a connection registers its statistics worker, then its sender. */
    method RegisterConnection(nwc: nat, stat: nat, onSend: nat) returns (c: Conn)
      requires Valid()
      modifies this`live, workerHdr, live
      ensures Valid() && fresh(c.stat) && fresh(c.send)
      ensures live == old(live) + [c.stat, c.send]
      ensures c.stat.entry == Worker(Some(nwc), Some(stat)) && c.send.entry == Worker(Some(nwc), Some(onSend))
      ensures forall x :: x in old(live) ==> x.entry == old(x.entry)
    {
      var first := RegisterWorker(nwc, stat);
      var second := RegisterWorker(nwc, onSend);
      c := Conn(first, second);
    }
  }

  // ---------- what a dispatch does ----------

  // The callback of the worker that is first cancels the next one, which the traversal has saved.
  ghost predicate LosesNext(rest: seq<Handle>, cancels: Handle -> seq<Handle>) {
    |rest| > 1 && rest[1] in cancels(rest[0])
  }

  // What the callback of the first worker leaves ahead of the dispatch.
  ghost function After(rest: seq<Handle>, cancels: Handle -> seq<Handle>): (r: seq<Handle>)
    requires rest != []
    ensures |r| < |rest|
  {
    if LosesNext(rest, cancels) then [] else Minus(rest[1..], Members(cancels(rest[0])))
  }

  // The workers that run: the first one, then those its callback left on the list.
  ghost function RunOrder(rest: seq<Handle>, cancels: Handle -> seq<Handle>): seq<Handle>
    decreases |rest|
  {
    if rest == [] then [] else [rest[0]] + RunOrder(After(rest, cancels), cancels)
  }

  // The worker that is cancelled while it is next, if there is one.
  ghost function Stray(rest: seq<Handle>, cancels: Handle -> seq<Handle>): Option<Handle>
    decreases |rest|
  {
    if rest == [] then None
    else if LosesNext(rest, cancels) then Some(rest[1])
    else Stray(After(rest, cancels), cancels)
  }

  // No callback that runs cancels the worker that is next at that moment.
  ghost predicate Safe(rest: seq<Handle>, cancels: Handle -> seq<Handle>) { Stray(rest, cancels) == None }

  // What the callbacks of these workers cancel, in order.
  ghost function CancelledBy(ran: seq<Handle>, cancels: Handle -> seq<Handle>): seq<Handle> {
    if ran == [] then [] else CancelledBy(ran[..|ran| - 1], cancels) + cancels(ran[|ran| - 1])
  }

  // The rings when a dispatch began, and what each registered worker was registered with.
  datatype Start = Start(live: seq<Handle>, parked: seq<Handle>, was: map<Handle, Worker>)

  // The workers ahead on the live ring, the ones that ran and the calls they got, and the worker astray.
  datatype Progress = Progress(rest: seq<Handle>, visited: seq<Handle>, calls: seq<Worker>, stray: Option<Handle>)

  ghost predicate Midway(init: seq<Handle>, was: map<Handle, Worker>, p: Progress, cancels: Handle -> seq<Handle>) {
    && p.visited + RunOrder(p.rest, cancels) == RunOrder(init, cancels)
    && (if p.stray == None then Stray(p.rest, cancels) else p.stray) == Stray(init, cancels)
    && (p.stray != None ==> p.rest == [])
    && |p.calls| == |p.visited|
    && forall i :: 0 <= i < |p.calls| ==> p.visited[i] in was && p.calls[i] == was[p.visited[i]]
  }

  lemma MidwayStarts(init: seq<Handle>, was: map<Handle, Worker>, cancels: Handle -> seq<Handle>)
    ensures Midway(init, was, Progress(init, [], [], None), cancels)
    ensures Minus(init, Members([])) == init && init[|init| - |init|..] == init
  {
    MinusNone(init, Members([]));
  }

  ghost function Advance(p: Progress, cancels: Handle -> seq<Handle>, call: Worker): Progress
    requires p.rest != []
  {
    Progress(After(p.rest, cancels), p.visited + [p.rest[0]], p.calls + [call],
             if LosesNext(p.rest, cancels) then Some(p.rest[1]) else None)
  }

  lemma MidwayStep(init: seq<Handle>, was: map<Handle, Worker>, p: Progress, cancels: Handle -> seq<Handle>)
    requires Midway(init, was, p, cancels) && p.rest != [] && p.rest[0] in was
    ensures Midway(init, was, Advance(p, cancels, was[p.rest[0]]), cancels)
  {
    var ahead := After(p.rest, cancels);
    Regroup(p.visited, [p.rest[0]], RunOrder(ahead, cancels));
  }

  lemma Advancing(live: seq<Handle>, init: seq<Handle>, was: map<Handle, Worker>, p: Progress,
                  cancels: Handle -> seq<Handle>, hdr: Handle, pos: Handle)
    requires Stands(live, p.rest, hdr, pos) && pos != hdr && p.stray == None
    requires Midway(init, was, p, cancels) && pos in was
    ensures p.rest != [] && p.rest[0] == pos == live[|live| - |p.rest|]
    ensures |p.rest| > 1 ==> p.rest[1] == live[|live| - |p.rest| + 1]
    ensures var next, left := Advance(p, cancels, was[pos]), Minus(live, Members(cancels(pos)));
            && Midway(init, was, next, cancels)
            && (next.stray == None ==> Stands(left, next.rest, hdr, if |p.rest| > 1 then p.rest[1] else hdr))
  {
    MidwayStep(init, was, p, cancels);
    if !LosesNext(p.rest, cancels) {
      StandsNext(live, p.rest, hdr, pos, Members(cancels(pos)));
    }
  }

  // The rings after one more callback.
  lemma CancelledStep(init: seq<Handle>, parked: seq<Handle>, visited: seq<Handle>, pos: Handle,
                      cancels: Handle -> seq<Handle>)
    ensures var before, after := CancelledBy(visited, cancels), CancelledBy(visited + [pos], cancels);
            && Minus(Minus(init, Members(before)), Members(cancels(pos))) == Minus(init, Members(after))
            && AllParked(AllParked(parked, before), cancels(pos)) == AllParked(parked, after)
            && Members(after) == Members(before) + Members(cancels(pos))
  {
    var before := CancelledBy(visited, cancels);
    assert (visited + [pos])[..|visited|] == visited;
    MinusMinus(init, Members(before), Members(cancels(pos)));
    MembersAppend(before, cancels(pos));
    AllParkedAppend(parked, before, cancels(pos));
  }

  // The traversal stands at the first worker of rest, the part of the list still ahead of it.
  ghost predicate Stands(live: seq<Handle>, rest: seq<Handle>, hdr: Handle, pos: ListHead?<Worker>) {
    && |rest| <= |live| && live[|live| - |rest|..] == rest
    && hdr !in live
    && pos == if rest == [] then hdr else rest[0]
  }

  lemma {:induction false} StandsNext(live: seq<Handle>, rest: seq<Handle>, hdr: Handle, pos: Handle, g: set<Handle>)
    requires Stands(live, rest, hdr, pos) && pos != hdr
    requires |rest| > 1 ==> rest[1] !in g
    ensures Stands(Minus(live, g), Minus(rest[1..], g), hdr, if |rest| > 1 then rest[1] else hdr)
  {
    var front := live[..|live| - |rest| + 1];
    assert live == front + rest[1..];
    MinusAppend(front, rest[1..], g);
    MinusMembers(live, g);
    assert hdr !in Members(Minus(live, g));
    if |rest| > 1 {
      MinusFirst(rest[1..], g);
    }
  }

  /** Off the live ring, on the way back to hdr along the removed ring: that was `total` when the traversal came
      to `first` on it; early is freed and ahead is next. */
  ghost predicate Detour(first: Handle, total: seq<Handle>, removed: seq<Handle>, early: seq<Handle>,
                         ahead: seq<Handle>, hdr: Handle, pos: ListHead?<Worker>) {
    && Stands(removed, ahead, hdr, pos)
    && removed[..|removed| - |ahead|] + (early + ahead) == total
    && early + ahead != [] && (early + ahead)[0] == first
  }

  lemma DetourStarts(removed: seq<Handle>, hdr: Handle, n: Handle) returns (ahead: seq<Handle>)
    requires n in removed && hdr !in removed
    ensures Detour(n, removed, removed, [], ahead, hdr, n)
  {
    var k :| 0 <= k < |removed| && removed[k] == n;
    ahead := removed[k..];
    assert [] + ahead == ahead && removed[..k] + ahead == removed;
  }

  lemma DetourEnds(first: Handle, total: seq<Handle>, removed: seq<Handle>, early: seq<Handle>,
                   ahead: seq<Handle>, hdr: Handle)
    requires Detour(first, total, removed, early, ahead, hdr, hdr)
    ensures removed + early == total && early != [] && early[0] == first
  {
    assert ahead == [] && early + ahead == early && removed[..|removed|] == removed;
  }

  lemma DetourStands(first: Handle, total: seq<Handle>, removed: seq<Handle>, early: seq<Handle>,
                     ahead: seq<Handle>, hdr: Handle, pos: Handle) returns (k: nat)
    requires Detour(first, total, removed, early, ahead, hdr, pos) && pos != hdr
    ensures k == |removed| - |ahead| < |removed| && removed[k] == pos
  {
    k := |removed| - |ahead|;
    assert removed[k..][0] == pos;
  }

  lemma DetourStep(first: Handle, total: seq<Handle>, removed: seq<Handle>, early: seq<Handle>, ahead: seq<Handle>,
                   hdr: Handle, pos: Handle, left: seq<Handle>, n: Handle)
    requires Detour(first, total, removed, early, ahead, hdr, pos) && pos != hdr
    requires var k := |removed| - |ahead|;
             left == Without(removed, k) && n == if k == |left| then hdr else left[k]
    ensures Detour(first, total, left, early + [pos], ahead[1..], hdr, n)
  {
    assert ahead == [pos] + ahead[1..];
    Regroup(early, [pos], ahead[1..]);
    Recut(removed, ahead);
  }

  lemma Recut(removed: seq<Handle>, ahead: seq<Handle>)
    requires ahead != [] && |ahead| <= |removed| && removed[|removed| - |ahead|..] == ahead
    ensures var k := |removed| - |ahead|;
            && Without(removed, k)[k..] == ahead[1..] && Without(removed, k)[..k] == removed[..k]
            && |Without(removed, k)| - |ahead[1..]| == k
            && forall x :: x in Without(removed, k) ==> x in removed
  {
  }

  // ---------- what it comes to ----------

  ghost predicate Within(at: seq<nat>, n: nat) { forall i :: 0 <= i < |at| ==> at[i] < n }

  // None of the workers at these positions that are before k cancels the k-th.
  ghost predicate Spared(rest: seq<Handle>, cancels: Handle -> seq<Handle>, at: seq<nat>, k: nat)
    requires k < |rest| && Within(at, |rest|)
  {
    forall i :: 0 <= i < |at| && at[i] < k ==> rest[k] !in cancels(rest[at[i]])
  }

  // Exactly those run that none of the others which run before cancels.
  ghost predicate AllSpared(rest: seq<Handle>, cancels: Handle -> seq<Handle>, at: seq<nat>)
    requires Within(at, |rest|)
  {
    forall k :: 0 <= k < |rest| ==> (k in at <==> Spared(rest, cancels, at, k))
  }

  /** Exactly those workers run, in list order, that none of the ones which ran before cancelled. A dispatch that strays
      breaks off: the last worker that runs cancels the one that is next at that moment, the j-th, because all in
      between were cancelled before. */
  lemma {:induction false} RunOrderMeans(rest: seq<Handle>, cancels: Handle -> seq<Handle>)
      returns (at: seq<nat>, j: nat)
    ensures IsSubsequence(RunOrder(rest, cancels), rest, at) && Within(at, |rest|)
    ensures Safe(rest, cancels) ==> AllSpared(rest, cancels, at)
    ensures !Safe(rest, cancels) ==> StraysAt(rest, cancels, at, j) && Stray(rest, cancels) == Some(rest[j])
    decreases |rest|
  {
    if rest == [] {
      at, j := [], 0;
    } else if LosesNext(rest, cancels) {
      at, j := [0], 1;
      StraysAtOnce(rest, cancels);
    } else {
      var ahead := After(rest, cancels);
      var order := RunOrder(ahead, cancels);
      var later, n := RunOrderMeans(ahead, cancels);
      assert RunOrder(rest, cancels) == [rest[0]] + order;
      if Safe(ahead, cancels) {
        at := SafeStep(rest, cancels, ahead, order, later);
        j := 0;
      } else {
        at, j := StrayStep(rest, cancels, ahead, order, later, n);
      }
    }
  }

  lemma StraysAtOnce(rest: seq<Handle>, cancels: Handle -> seq<Handle>)
    requires rest != [] && LosesNext(rest, cancels)
    ensures IsSubsequence(RunOrder(rest, cancels), rest, [0]) && Within([0], |rest|)
    ensures Stray(rest, cancels) == Some(rest[1]) && StraysAt(rest, cancels, [0], 1)
  {
    assert RunOrder(rest, cancels) == [rest[0]] + RunOrder([], cancels) == [rest[0]];
  }

  lemma SafeStep(rest: seq<Handle>, cancels: Handle -> seq<Handle>, ahead: seq<Handle>, order: seq<Handle>,
                 later: seq<nat>) returns (at: seq<nat>)
    requires rest != [] && !LosesNext(rest, cancels) && ahead == After(rest, cancels)
    requires IsSubsequence(order, ahead, later) && Within(later, |ahead|) && AllSpared(ahead, cancels, later)
    ensures IsSubsequence([rest[0]] + order, rest, at) && Within(at, |rest|) && AllSpared(rest, cancels, at)
  {
    var from;
    from, at := LeftAhead(rest, cancels, later);
    RunsBehind(rest, cancels, ahead, from, later, at, order);
    SafeBehind(rest, cancels, ahead, from, later, at);
  }

  lemma StrayStep(rest: seq<Handle>, cancels: Handle -> seq<Handle>, ahead: seq<Handle>, order: seq<Handle>,
                  later: seq<nat>, n: nat) returns (at: seq<nat>, j: nat)
    requires rest != [] && !LosesNext(rest, cancels) && ahead == After(rest, cancels)
    requires IsSubsequence(order, ahead, later) && StraysAt(ahead, cancels, later, n)
    ensures IsSubsequence([rest[0]] + order, rest, at) && StraysAt(rest, cancels, at, j) && rest[j] == ahead[n]
  {
    var from;
    from, at := LeftAhead(rest, cancels, later);
    RunsBehind(rest, cancels, ahead, from, later, at, order);
    j := StraysBehind(rest, cancels, ahead, from, later, at, n);
  }

  lemma LeftAhead(rest: seq<Handle>, cancels: Handle -> seq<Handle>, later: seq<nat>)
      returns (from: seq<nat>, at: seq<nat>)
    requires rest != [] && !LosesNext(rest, cancels) && Within(later, |After(rest, cancels)|)
    requires forall i, j :: 0 <= i < j < |later| ==> later[i] < later[j]
    ensures Leaves(rest, cancels, After(rest, cancels), from, later, at)
  {
    var gone, tail := Members(cancels(rest[0])), rest[1..];
    from := ExceptKeepsOrder(tail, w => w in gone);
    at := [0] + seq(|later|, i requires 0 <= i < |later| => from[later[i]] + 1);
    assert forall k :: 0 <= k < |tail| ==> tail[k] == rest[k + 1];
  }

  lemma SafeBehind(rest: seq<Handle>, cancels: Handle -> seq<Handle>, ahead: seq<Handle>, from: seq<nat>,
                   later: seq<nat>, at: seq<nat>)
    requires Leaves(rest, cancels, ahead, from, later, at) && Within(at, |rest|)
    requires AllSpared(ahead, cancels, later)
    ensures AllSpared(rest, cancels, at)
  {
    forall k | 0 <= k < |rest|
      ensures k in at <==> Spared(rest, cancels, at, k)
    {
      SparedAt(rest, cancels, ahead, from, later, at, |ahead|, k);
    }
  }

  // The last worker at these positions cancels the j-th, which is next then.
  ghost predicate StraysAt(rest: seq<Handle>, cancels: Handle -> seq<Handle>, at: seq<nat>, j: nat) {
    && at != [] && Within(at, |rest|)
    && var last := at[|at| - 1];
       && last < j < |rest| && rest[j] in cancels(rest[last])
       && (forall k :: 0 <= k <= last ==> (k in at <==> Spared(rest, cancels, at, k)))
       && (forall i :: 0 <= i < |at| - 1 ==> rest[j] !in cancels(rest[at[i]]))
       && (forall k :: last < k < j ==> exists i :: 0 <= i < |at| - 1 && rest[k] in cancels(rest[at[i]]))
  }

  /** The callback of the first worker leaves `ahead` behind it, where from says it stood in the tail; later are the
      positions that run among those, and at the same positions, and the first, in the whole list. */
  ghost predicate Leaves(rest: seq<Handle>, cancels: Handle -> seq<Handle>, ahead: seq<Handle>, from: seq<nat>,
                         later: seq<nat>, at: seq<nat>) {
    && rest != [] && IsSubsequence(ahead, rest[1..], from)
    && (forall k :: 0 <= k < |rest| - 1 ==> (k in from <==> rest[k + 1] !in cancels(rest[0])))
    && Within(later, |ahead|) && (forall i, j :: 0 <= i < j < |later| ==> later[i] < later[j])
    && |at| == |later| + 1 && at[0] == 0 && (forall i :: 0 <= i < |later| ==> at[i + 1] == from[later[i]] + 1)
  }

  lemma RunsBehind(rest: seq<Handle>, cancels: Handle -> seq<Handle>, ahead: seq<Handle>, from: seq<nat>,
                   later: seq<nat>, at: seq<nat>, order: seq<Handle>)
    requires Leaves(rest, cancels, ahead, from, later, at) && IsSubsequence(order, ahead, later)
    ensures IsSubsequence([rest[0]] + order, rest, at) && Within(at, |rest|)
  {
    var all := [rest[0]] + order;
    forall i | 0 <= i < |at|
      ensures at[i] < |rest| && all[i] == rest[at[i]]
    {
      if i > 0 {
        assert at[i] == from[later[i - 1]] + 1 && order[i - 1] == ahead[later[i - 1]];
        assert rest[1..][from[later[i - 1]]] == rest[at[i]];
      }
    }
    forall i, j | 0 <= i < j < |at|
      ensures at[i] < at[j]
    {
      assert at[j] == from[later[j - 1]] + 1;
      if i > 0 {
        assert at[i] == from[later[i - 1]] + 1 && later[i - 1] < later[j - 1];
      }
    }
  }

  // A worker that is left ahead runs, or is spared, in the list exactly when it does among those ahead.
  lemma SparedAhead(rest: seq<Handle>, cancels: Handle -> seq<Handle>, ahead: seq<Handle>, from: seq<nat>,
                    later: seq<nat>, at: seq<nat>, m: nat)
    requires Leaves(rest, cancels, ahead, from, later, at) && Within(at, |rest|) && m < |ahead|
    ensures rest[from[m] + 1] == ahead[m] && rest[from[m] + 1] !in cancels(rest[0])
    ensures Spared(rest, cancels, at, from[m] + 1) <==> Spared(ahead, cancels, later, m)
    ensures from[m] + 1 in at <==> m in later
  {
    var k := from[m] + 1;
    assert from[m] in from && rest[1..][from[m]] == rest[k];
    forall i | 0 <= i < |later|
      ensures rest[at[i + 1]] == ahead[later[i]]
      ensures (at[i + 1] < k <==> later[i] < m) && (at[i + 1] == k <==> later[i] == m)
    {
      assert rest[1..][from[later[i]]] == ahead[later[i]];
    }
    if Spared(ahead, cancels, later, m) {
      forall i | 0 <= i < |at| && at[i] < k
        ensures rest[k] !in cancels(rest[at[i]])
      {
        if i > 0 {
          assert rest[at[(i - 1) + 1]] == ahead[later[i - 1]] && later[i - 1] < m;
        }
      }
    }
    if Spared(rest, cancels, at, k) {
      forall i | 0 <= i < |later| && later[i] < m
        ensures ahead[m] !in cancels(ahead[later[i]])
      {
        assert at[i + 1] < k;
      }
    }
    if k in at {
      var i :| 0 <= i < |at| && at[i] == k;
      assert at[i] == at[(i - 1) + 1];
      assert later[i - 1] == m;
    }
    if m in later {
      var i :| 0 <= i < |later| && later[i] == m;
      assert at[i + 1] == k;
    }
  }

  // For those ahead that are below the bound, and those the first worker cancels.
  lemma SparedAt(rest: seq<Handle>, cancels: Handle -> seq<Handle>, ahead: seq<Handle>, from: seq<nat>,
                 later: seq<nat>, at: seq<nat>, bound: nat, k: nat)
    requires Leaves(rest, cancels, ahead, from, later, at) && Within(at, |rest|) && bound <= |ahead| && k < |rest|
    requires forall m :: 0 <= m < bound ==> (m in later <==> Spared(ahead, cancels, later, m))
    requires bound < |ahead| ==> k <= from[bound]
    ensures k in at <==> Spared(rest, cancels, at, k)
  {
    if k == 0 {
      assert at[0] == 0;
    } else if k - 1 in from {
      var m :| 0 <= m < |from| && from[m] == k - 1;
      SparedAhead(rest, cancels, ahead, from, later, at, m);
    } else {
      assert rest[(k - 1) + 1] in cancels(rest[at[0]]);
      forall i | 0 <= i < |at|
        ensures at[i] != k
      {
        if i > 0 {
          assert from[later[i - 1]] in from && at[(i - 1) + 1] == from[later[i - 1]] + 1;
        }
      }
    }
  }

  lemma StraysBehind(rest: seq<Handle>, cancels: Handle -> seq<Handle>, ahead: seq<Handle>, from: seq<nat>,
                     later: seq<nat>, at: seq<nat>, n: nat) returns (j: nat)
    requires Leaves(rest, cancels, ahead, from, later, at) && Within(at, |rest|) && StraysAt(ahead, cancels, later, n)
    ensures StraysAt(rest, cancels, at, j) && rest[j] == ahead[n]
  {
    j := from[n] + 1;
    var end := later[|later| - 1];
    var last := at[|at| - 1];
    assert last == at[(|later| - 1) + 1] == from[end] + 1;
    SparedAhead(rest, cancels, ahead, from, later, at, n);
    SparedAhead(rest, cancels, ahead, from, later, at, end);
    forall k | 0 <= k <= last
      ensures k in at <==> Spared(rest, cancels, at, k)
    {
      SparedAt(rest, cancels, ahead, from, later, at, end + 1, k);
    }
    forall i | 0 <= i < |at| - 1
      ensures rest[j] !in cancels(rest[at[i]])
    {
      if i > 0 {
        SparedAhead(rest, cancels, ahead, from, later, at, later[i - 1]);
        assert at[(i - 1) + 1] == from[later[i - 1]] + 1;
      }
    }
    forall k | last < k < j
      ensures exists i :: 0 <= i < |at| - 1 && rest[k] in cancels(rest[at[i]])
    {
      CancelledBetween(rest, cancels, ahead, from, later, at, n, k);
    }
  }

  // Whatever is between the last worker that runs and the stray one was cancelled before.
  lemma CancelledBetween(rest: seq<Handle>, cancels: Handle -> seq<Handle>, ahead: seq<Handle>, from: seq<nat>,
                         later: seq<nat>, at: seq<nat>, n: nat, k: nat)
    requires Leaves(rest, cancels, ahead, from, later, at) && Within(at, |rest|) && StraysAt(ahead, cancels, later, n)
    requires at[|at| - 1] < k < from[n] + 1
    ensures exists i :: 0 <= i < |at| - 1 && rest[k] in cancels(rest[at[i]])
  {
    if k - 1 in from {
      var m :| 0 <= m < |from| && from[m] == k - 1;
      assert at[(|later| - 1) + 1] == from[later[|later| - 1]] + 1;
      assert later[|later| - 1] < m < n;
      var i :| 0 <= i < |later| - 1 && ahead[m] in cancels(ahead[later[i]]);
      SparedAhead(rest, cancels, ahead, from, later, at, m);
      SparedAhead(rest, cancels, ahead, from, later, at, later[i]);
      assert rest[k] in cancels(rest[at[i + 1]]);
    } else {
      assert rest[(k - 1) + 1] in cancels(rest[at[0]]);
    }
  }

  /** What the callbacks cancel is what each of them cancels, in the order they ran; workers cancelled for the first
      time, and once, are parked behind those parked before, in that order. */
  lemma {:induction false} ParkedInOrder(removed: seq<Handle>, ran: seq<Handle>, cancels: Handle -> seq<Handle>)
    ensures var all := CancelledBy(ran, cancels);
            && all == Flatten(seq(|ran|, i requires 0 <= i < |ran| => cancels(ran[i])))
            && (Distinct(all) && (forall i :: 0 <= i < |all| ==> all[i] !in removed) ==>
                  AllParked(removed, all) == removed + all)
  {
    CancelledInOrder(ran, cancels);
    var all := CancelledBy(ran, cancels);
    if Distinct(all) && forall i :: 0 <= i < |all| ==> all[i] !in removed {
      FirstParked(removed, all);
    }
  }

  lemma {:induction false} CancelledInOrder(ran: seq<Handle>, cancels: Handle -> seq<Handle>)
    ensures CancelledBy(ran, cancels) == Flatten(seq(|ran|, i requires 0 <= i < |ran| => cancels(ran[i])))
  {
    if ran != [] {
      var front, last := ran[..|ran| - 1], |ran| - 1;
      CancelledInOrder(front, cancels);
      var parts := seq(|front|, i requires 0 <= i < |front| => cancels(front[i]));
      assert seq(|ran|, i requires 0 <= i < |ran| => cancels(ran[i])) == parts + [cancels(ran[last])];
      FlattenSnoc(parts, cancels(ran[last]));
    }
  }

  lemma {:induction false} FirstParked(removed: seq<Handle>, ws: seq<Handle>)
    requires Distinct(ws) && forall i :: 0 <= i < |ws| ==> ws[i] !in removed
    ensures AllParked(removed, ws) == removed + ws
  {
    if ws != [] {
      var front, w := ws[..|ws| - 1], ws[|ws| - 1];
      FirstParked(removed, front);
      MinusNone(removed + front, {w});
      assert ws == front + [w];
      Regroup(removed, front, [w]);
    }
  }

  // What a dispatch leaves on the live ring: the workers that no callback which ran has cancelled.
  lemma {:induction false} LeftByAll(live: seq<Handle>, ran: seq<Handle>, cancels: Handle -> seq<Handle>, w: Handle)
    ensures w in Minus(live, Members(CancelledBy(ran, cancels)))
            <==> w in live && forall i :: 0 <= i < |ran| ==> w !in cancels(ran[i])
  {
    MinusMembers(live, Members(CancelledBy(ran, cancels)));
    CancelledByOne(ran, cancels, w);
    assert w in Minus(live, Members(CancelledBy(ran, cancels)))
      <==> w in Members(Minus(live, Members(CancelledBy(ran, cancels))));
  }

  lemma {:induction false} CancelledByOne(ran: seq<Handle>, cancels: Handle -> seq<Handle>, w: Handle)
    ensures w in CancelledBy(ran, cancels) <==> exists i :: 0 <= i < |ran| && w in cancels(ran[i])
  {
    if ran != [] {
      var front, last := ran[..|ran| - 1], |ran| - 1;
      CancelledByOne(front, cancels, w);
      assert ran == front + [ran[last]];
      if w in CancelledBy(front, cancels) {
        var i :| 0 <= i < |front| && w in cancels(front[i]);
        assert w in cancels(ran[i]);
      }
    }
  }

  /** When callbacks cancel only themselves or workers already visited, the dispatch is safe and runs every
      worker of the list exactly once, in registration order. */
  lemma {:induction false} BackwardCancelsRunAll(rest: seq<Handle>, cancels: Handle -> seq<Handle>)
    requires forall i, j :: 0 <= i < j < |rest| ==> rest[j] !in cancels(rest[i])
    ensures Safe(rest, cancels) && RunOrder(rest, cancels) == rest
    decreases |rest|
  {
    if rest != [] {
      var tail := rest[1..];
      assert !LosesNext(rest, cancels);
      MinusNone(tail, Members(cancels(rest[0])));
      BackwardCancelsRunAll(tail, cancels);
    }
  }

  /** The shortest dispatch that strays: two workers, of which the first cancels the second. */
  lemma CancelledNextStrays(a: Handle, b: Handle, cancels: Handle -> seq<Handle>)
    requires cancels(a) == [b]
    ensures Stray([a, b], cancels) == Some(b) && RunOrder([a, b], cancels) == [a]
  {
    assert LosesNext([a, b], cancels);
  }

  // ---------- the workers of the connections ----------

  // The workers of a connection, in the order it registers them.
  datatype Conn = Conn(stat: Handle, send: Handle)

  function PairUp(conns: seq<Conn>): seq<Handle> {
    if conns == [] then []
    else
      var last := conns[|conns| - 1];
      PairUp(conns[..|conns| - 1]) + [last.stat, last.send]
  }

  /** Statistics workers cancel nothing; a sender cancels nothing or, closing its connection, the two workers of it. */
  ghost predicate OnlyCloses(conns: seq<Conn>, cancels: Handle -> seq<Handle>) {
    forall c :: c in conns ==>
      cancels(c.stat) == [] && (cancels(c.send) == [] || cancels(c.send) == [c.stat, c.send])
  }

  ghost predicate Closes(c: Conn, cancels: Handle -> seq<Handle>) { cancels(c.send) != [] }

  // The workers of different connections, and the two of one, are different.
  lemma {:induction false} PairUpAt(conns: seq<Conn>, i: nat)
    requires i < |conns|
    ensures |PairUp(conns)| == 2 * |conns|
    ensures PairUp(conns)[2 * i] == conns[i].stat && PairUp(conns)[2 * i + 1] == conns[i].send
    decreases |conns|
  {
    var front := conns[..|conns| - 1];
    if i < |front| {
      PairUpAt(front, i);
    } else if front != [] {
      PairUpAt(front, 0);
    }
  }

  lemma PairUpDistinct(conns: seq<Conn>, c: Conn, d: Conn)
    requires Distinct(PairUp(conns)) && c in conns && d in conns
    ensures c.stat == d.stat || c.send == d.send ==> c == d
    ensures c.stat != d.send
  {
    var i, j :| 0 <= i < |conns| && conns[i] == c && 0 <= j < |conns| && conns[j] == d;
    PairUpAt(conns, i);
    PairUpAt(conns, j);
    var s := PairUp(conns);
    assert s[2 * i] != s[2 * j + 1];
    assert i != j ==> s[2 * i] != s[2 * j] && s[2 * i + 1] != s[2 * j + 1];
  }

  lemma PairUpSnoc(conns: seq<Conn>, c: Conn)
    ensures PairUp(conns + [c]) == PairUp(conns) + [c.stat, c.send]
  {
    assert (conns + [c])[..|conns|] == conns;
  }

  lemma {:induction false} PairMinus(conns: seq<Conn>, gone: set<Handle>, shut: Conn -> bool)
    requires forall c :: c in conns ==> (c.stat in gone <==> shut(c)) && (c.send in gone <==> shut(c))
    ensures Minus(PairUp(conns), gone) == PairUp(Except(conns, shut))
  {
    if conns != [] {
      var front, c := conns[..|conns| - 1], conns[|conns| - 1];
      PairMinus(front, gone, shut);
      MinusAppend(PairUp(front), [c.stat, c.send], gone);
      PairUpSnoc(Except(front, shut), c);
      if shut(c) {
        MinusAll([c.stat, c.send], gone);
        assert Except(conns, shut) == Except(front, shut);
      } else {
        MinusNone([c.stat, c.send], gone);
        assert Except(conns, shut) == Except(front, shut) + [c];
      }
    }
  }

  /** The list stays the workers of the open connections, pair by pair: a connection that opens appends its two
      workers, and one that closes takes away exactly its two. */
  lemma ConnectionsKeepPairs(conns: seq<Conn>, c: Conn)
    ensures PairUp(conns + [c]) == PairUp(conns) + [c.stat, c.send]
    ensures Distinct(PairUp(conns)) && c in conns ==>
              Minus(PairUp(conns), Members([c.stat, c.send])) == PairUp(Except(conns, d => d == c))
  {
    PairUpSnoc(conns, c);
    if Distinct(PairUp(conns)) && c in conns {
      var gone := Members([c.stat, c.send]);
      assert gone == {c.stat, c.send};
      forall d | d in conns
        ensures (d.stat in gone <==> d == c) && (d.send in gone <==> d == c)
      {
        PairUpDistinct(conns, c, d);
        PairUpDistinct(conns, d, c);
      }
      PairMinus(conns, gone, d => d == c);
    }
  }

  lemma {:induction false} CancelledByConnections(conns: seq<Conn>, cancels: Handle -> seq<Handle>)
    requires OnlyCloses(conns, cancels)
    ensures forall x :: x in CancelledBy(PairUp(conns), cancels)
              <==> exists c :: c in conns && Closes(c, cancels) && (x == c.stat || x == c.send)
  {
    if conns != [] {
      var front, c := conns[..|conns| - 1], conns[|conns| - 1];
      assert conns == front + [c];
      CancelledByConnections(front, cancels);
      var s := PairUp(front);
      assert PairUp(conns) == (s + [c.stat]) + [c.send];
      assert (s + [c.stat] + [c.send])[..|s| + 1] == s + [c.stat] && (s + [c.stat])[..|s|] == s;
      assert CancelledBy(PairUp(conns), cancels) == CancelledBy(s, cancels) + cancels(c.send);
    }
  }

  /** Dispatching the workers of the connections is safe, runs every worker once, in order, and leaves the
      workers of the connections that did not close. */
  lemma {:induction false} ConnectionWorkersAllRun(conns: seq<Conn>, cancels: Handle -> seq<Handle>)
    requires Distinct(PairUp(conns)) && OnlyCloses(conns, cancels)
    ensures var live := PairUp(conns);
            && Safe(live, cancels) && RunOrder(live, cancels) == live
            && Minus(live, Members(CancelledBy(live, cancels))) == PairUp(Except(conns, c => Closes(c, cancels)))
  {
    var live := PairUp(conns);
    forall i, j | 0 <= i < j < |live|
      ensures live[j] !in cancels(live[i])
    {
      PairCancelsBack(conns, cancels, i, j);
    }
    BackwardCancelsRunAll(live, cancels);
    var gone := Members(CancelledBy(live, cancels));
    CancelledByConnections(conns, cancels);
    forall c | c in conns
      ensures (c.stat in gone <==> Closes(c, cancels)) && (c.send in gone <==> Closes(c, cancels))
    {
      forall d | d in conns
        ensures (c.stat == d.stat || c.send == d.send ==> c == d) && c.stat != d.send && c.send != d.stat
      {
        PairUpDistinct(conns, c, d);
        PairUpDistinct(conns, d, c);
      }
    }
    PairMinus(conns, gone, c => Closes(c, cancels));
  }

  lemma PairCancelsBack(conns: seq<Conn>, cancels: Handle -> seq<Handle>, i: nat, j: nat)
    requires Distinct(PairUp(conns)) && OnlyCloses(conns, cancels) && i < j < |PairUp(conns)|
    ensures PairUp(conns)[j] !in cancels(PairUp(conns)[i])
  {
    if conns != [] {
      PairUpAt(conns, 0);
      PairUpAt(conns, i / 2);
      assert conns[i / 2] in conns;
      assert i == 2 * (i / 2) || i == 2 * (i / 2) + 1;
      assert PairUp(conns)[j] != PairUp(conns)[i] && PairUp(conns)[j] != PairUp(conns)[2 * (i / 2)];
    }
  }

  // ---------- facts about the functions above ----------

  lemma MinusMembers(s: seq<Handle>, gone: set<Handle>)
    ensures Members(Minus(s, gone)) == Members(s) - gone
  {
    ExceptIsExact(s, w => w in gone);
    forall w | w in Members(Minus(s, gone))
      ensures w in Members(s) - gone
    {
      assert w in Minus(s, gone) && w in s;
    }
    forall w | w in Members(s) - gone
      ensures w in Members(Minus(s, gone))
    {
      assert w in Minus(s, gone);
    }
  }

  lemma MinusAppend(a: seq<Handle>, b: seq<Handle>, gone: set<Handle>)
    ensures Minus(a + b, gone) == Minus(a, gone) + Minus(b, gone)
  {
    ExceptAppend(a, b, w => w in gone);
  }

  lemma MinusMinus(s: seq<Handle>, a: set<Handle>, b: set<Handle>)
    ensures Minus(Minus(s, a), b) == Minus(s, a + b)
  {
    ExceptTwice(s, w => w in a, w => w in b, w => w in a + b);
  }

  lemma MinusNone(s: seq<Handle>, gone: set<Handle>)
    requires forall i :: 0 <= i < |s| ==> s[i] !in gone
    ensures Minus(s, gone) == s
  {
    ExceptNone(s, w => w in gone);
  }

  lemma MinusAll(s: seq<Handle>, gone: set<Handle>)
    requires forall i :: 0 <= i < |s| ==> s[i] in gone
    ensures Minus(s, gone) == []
  {
    ExceptAll(s, w => w in gone);
  }

  lemma MinusFirst(s: seq<Handle>, gone: set<Handle>)
    requires s != [] && s[0] !in gone
    ensures Minus(s, gone) != [] && Minus(s, gone)[0] == s[0]
  {
    var head := [s[0]];
    assert s == head + s[1..];
    MinusAppend(head, s[1..], gone);
    MinusNone(head, gone);
  }

  lemma MinusMiddle(front: seq<Handle>, w: Handle, tail: seq<Handle>)
    requires w !in front && w !in tail
    ensures Minus(front + ([w] + tail), {w}) == front + tail
  {
    MinusAppend(front, [w] + tail, {w});
    MinusAppend([w], tail, {w});
    MinusNone(front, {w});
    MinusAll([w], {w});
    MinusNone(tail, {w});
    assert [] + tail == tail;
  }

  lemma MinusOne(s: seq<Handle>, k: nat)
    requires Distinct(s) && k < |s|
    ensures Minus(s, {s[k]}) == Without(s, k)
  {
    assert s == s[..k] + ([s[k]] + s[k + 1..]);
    MinusMiddle(s[..k], s[k], s[k + 1..]);
  }

  lemma ParkedMembers(removed: seq<Handle>, w: Handle)
    ensures Members(Parked(removed, w)) == Members(removed) + {w}
  {
    MinusMembers(removed, {w});
    MembersSnoc(Minus(removed, {w}), w);
  }

  lemma {:induction false} AllParkedAppend(removed: seq<Handle>, a: seq<Handle>, b: seq<Handle>)
    ensures AllParked(AllParked(removed, a), b) == AllParked(removed, a + b)
  {
    if b == [] {
      assert a + b == a;
    } else {
      var last := |b| - 1;
      assert (a + b)[..|a| + last] == a + b[..last];
      AllParkedAppend(removed, a, b[..last]);
    }
  }

  lemma {:induction false} AllParkedMembers(removed: seq<Handle>, ws: seq<Handle>)
    ensures Members(AllParked(removed, ws)) == Members(removed) + Members(ws)
  {
    if ws != [] {
      var front, w := ws[..|ws| - 1], ws[|ws| - 1];
      AllParkedMembers(removed, front);
      ParkedMembers(AllParked(removed, front), w);
      MembersSnoc(front, w);
      assert ws == front + [w];
    }
  }

  lemma MembersSnoc(s: seq<Handle>, w: Handle)
    ensures Members(s + [w]) == Members(s) + {w}
  {
  }

  lemma MembersAppend(a: seq<Handle>, b: seq<Handle>)
    ensures Members(a + b) == Members(a) + Members(b)
  {
  }

  lemma MembersWithout(s: seq<Handle>, k: nat)
    requires Distinct(s) && k < |s|
    ensures Members(Without(s, k)) == Members(s) - {s[k]}
  {
    MinusOne(s, k);
    MinusMembers(s, {s[k]});
  }
}
