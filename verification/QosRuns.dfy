/** Whole runs of the quality-of-service protocol: what any sequence of creations,
    acknowledgements and statistics calls conserves, and how the averages behave. */
module QosRuns {
  import opened Sequences
  import opened Words
  import opened Qos

  datatype Event =
    | Create(length: uint32, timestamp: uint32)
    | Ack(ack: Header, recvTs: uint32)
    | Stat(now: uint32)

  // The protocol state with the history of ids: who was acknowledged, who was counted lost, the bytes created,
  // and the totals at the last reset of the interval counters.
  datatype Ledger = Ledger(s: State, created: nat, bytes: nat, acked: seq<nat>, lost: seq<nat>,
                           createdAtReset: nat, bytesAtReset: nat, lostAtReset: nat)

  const START := Ledger(INIT, 0, 0, [], [], 0, 0, 0)

  function Ids(q: seq<Entry>): seq<nat> { seq(|q|, i requires 0 <= i < |q| => q[i].id) }

  function Apply(l: Ledger, ev: Event): Ledger {
    match ev
    case Create(length, timestamp) =>
      l.(s := AfterCreate(l.s, Entry(l.created, timestamp), length),
         created := l.created + 1, bytes := l.bytes + HEADER_LEN + length)
    case Ack(ack, recvTs) =>
      var next := l.(s := AfterAck(l.s, ack, recvTs));
      if Matches(l.s, ack) then
        next.(acked := l.acked + [l.s.queue[FirstStamped(l.s.queue, ack.ackTimestamp)].id])
      else next
    case Stat(now) =>
      var next := l.(s := AfterStat(l.s, now));
      if l.s.lastStat == 0 then next
      else
        var lost := l.lost + Ids(Select(l.s.queue, now, l.s.rtt, true));
        if ResetDue(l.s, now) then
          next.(lost := lost, createdAtReset := l.created, bytesAtReset := l.bytes, lostAtReset := |lost|)
        else next.(lost := lost)
  }

  function Run(events: seq<Event>): Ledger {
    if events == [] then START else Apply(Run(events[..|events| - 1]), events[|events| - 1])
  }

  // ---------- conservation ----------

  function Places(l: Ledger): multiset<nat> { multiset(l.acked) + multiset(l.lost) + multiset(Ids(l.s.queue)) }

  ghost predicate Conserved(l: Ledger) {
    && (forall id: nat :: Places(l)[id] == if id < l.created then 1 else 0)
    && |l.acked| + |l.lost| + |l.s.queue| == l.created
    && l.createdAtReset <= l.created && l.bytesAtReset <= l.bytes && l.lostAtReset <= |l.lost|
    && l.s.sentPackages == Add32(l.created - l.createdAtReset, 0)
    && l.s.sentBytes == Add32(l.bytes - l.bytesAtReset, 0)
    && l.s.lossPackages == Add32(|l.lost| - l.lostAtReset, 0)
  }

  lemma IdsAppend(a: seq<Entry>, b: seq<Entry>)
    ensures Ids(a + b) == Ids(a) + Ids(b)
  {
  }

  lemma WithoutIds(q: seq<Entry>, k: nat)
    requires k < |q|
    ensures multiset(Ids(q)) == multiset(Ids(Without(q, k))) + multiset{q[k].id}
  {
    assert q == q[..k] + ([q[k]] + q[k + 1..]);
    IdsAppend(q[..k], [q[k]] + q[k + 1..]);
    IdsAppend([q[k]], q[k + 1..]);
    IdsAppend(q[..k], q[k + 1..]);
    assert Ids([q[k]]) == [q[k].id];
  }

  lemma {:induction false} SelectPartitions(q: seq<Entry>, now: uint32, rtt: real)
    ensures multiset(Ids(q)) == multiset(Ids(Select(q, now, rtt, true))) + multiset(Ids(Select(q, now, rtt, false)))
    ensures |q| == |Select(q, now, rtt, true)| + |Select(q, now, rtt, false)|
  {
    if q != [] {
      var last := |q| - 1;
      var gone := Expired(q[last], now, rtt);
      var front, e := q[..last], q[last];
      SelectPartitions(front, now, rtt);
      SelectStep(q, last, now, rtt);
      assert q[..last + 1] == q == front + [e];
      IdsSnoc(front, e);
      IdsSnoc(Select(front, now, rtt, gone), e);
      assert Select(q, now, rtt, gone) == Select(front, now, rtt, gone) + [e];
      assert Select(q, now, rtt, !gone) == Select(front, now, rtt, !gone);
    }
  }

  lemma IdsSnoc(q: seq<Entry>, e: Entry)
    ensures multiset(Ids(q + [e])) == multiset(Ids(q)) + multiset{e.id}
  {
    IdsAppend(q, [e]);
    assert Ids([e]) == [e.id];
  }

  lemma CreateConserves(l: Ledger, length: uint32, timestamp: uint32)
    requires Conserved(l)
    ensures Conserved(Apply(l, Create(length, timestamp)))
  {
    var next := Apply(l, Create(length, timestamp));
    var e := Entry(l.created, timestamp);
    IdsAppend(l.s.queue, [e]);
    assert Ids([e]) == [l.created];
    assert Places(next) == Places(l) + multiset{l.created};
    Add32Sum(l.created - l.createdAtReset, 1);
    Add32Sum(l.bytes - l.bytesAtReset, HEADER_LEN + length);
  }

  lemma AckConserves(l: Ledger, ack: Header, recvTs: uint32)
    requires Conserved(l)
    ensures Conserved(Apply(l, Ack(ack, recvTs)))
  {
    if Matches(l.s, ack) {
      WithoutIds(l.s.queue, FirstStamped(l.s.queue, ack.ackTimestamp));
      assert Places(Apply(l, Ack(ack, recvTs))) == Places(l);
    }
  }

  lemma StatMovesExpired(l: Ledger, now: uint32)
    requires l.s.lastStat != 0
    ensures Places(Apply(l, Stat(now))) == Places(l)
    ensures var next := Apply(l, Stat(now)); |next.lost| + |next.s.queue| == |l.lost| + |l.s.queue|
    ensures |Apply(l, Stat(now)).lost| == |l.lost| + |Select(l.s.queue, now, l.s.rtt, true)|
  {
    SelectPartitions(l.s.queue, now, l.s.rtt);
    var gone := Ids(Select(l.s.queue, now, l.s.rtt, true));
    assert multiset(l.lost + gone) == multiset(l.lost) + multiset(gone);
  }

  lemma StatConserves(l: Ledger, now: uint32)
    requires Conserved(l)
    ensures Conserved(Apply(l, Stat(now)))
  {
    var next := Apply(l, Stat(now));
    if l.s.lastStat == 0 {
      assert Places(next) == Places(l);
    } else {
      StatMovesExpired(l, now);
      Add32Sum(|l.lost| - l.lostAtReset, |Select(l.s.queue, now, l.s.rtt, true)|);
    }
  }

  lemma ApplyConserves(l: Ledger, ev: Event)
    requires Conserved(l)
    ensures Conserved(Apply(l, ev))
  {
    match ev
    case Create(length, timestamp) => CreateConserves(l, length, timestamp);
    case Ack(ack, recvTs) => AckConserves(l, ack, recvTs);
    case Stat(now) => StatConserves(l, now);
  }

  /** Every package ever created is in exactly one of: acknowledged, counted lost, still queued;
      and the interval counters are what was created and lost since the last reset. */
  lemma {:induction false} EveryRunConserves(events: seq<Event>)
    ensures Conserved(Run(events))
  {
    if events == [] {
      assert forall id: nat :: Places(START)[id] == 0;
    } else {
      EveryRunConserves(events[..|events| - 1]);
      ApplyConserves(Run(events[..|events| - 1]), events[|events| - 1]);
    }
  }

  // ---------- what a statistics call leaves queued ----------

  /** After any statistics call but the first, the queue is the entries no older than rtt, in order. */
  lemma StatKeepsTheYoung(s: State, now: uint32) returns (at: seq<nat>)
    requires s.lastStat != 0
    ensures IsSubsequence(AfterStat(s, now).queue, s.queue, at)
    ensures forall k :: 0 <= k < |s.queue| ==>
              (k in at <==> ((now - s.queue[k].timestamp) % 0x1_0000_0000) as real <= s.rtt)
  {
    at := ExceptKeepsOrder(s.queue, e => Expired(e, now, s.rtt) != false);
  }

  /** The interval counters are reset exactly when at least a second, and less than 2^31 milliseconds,
      has passed since the last reset on the wrapping clock: beyond that the difference turns negative.
      The averages never change. */
  lemma StatResetsExactlyWhen(s: State, now: uint32)
    requires s.lastStat != 0
    ensures AfterStat(s, now).rtt == s.rtt && AfterStat(s, now).jitter == s.jitter
    ensures var t, elapsed := AfterStat(s, now), (now - s.lastStat) % 0x1_0000_0000;
            if 1000 <= elapsed < 0x8000_0000 then
              t.lastStat == now && t.lossPackages == 0 && t.sentPackages == 0 && t.sentBytes == 0
            else
              t.lastStat == s.lastStat && t.sentPackages == s.sentPackages && t.sentBytes == s.sentBytes
              && t.lossPackages == (s.lossPackages + |s.queue| - |t.queue|) % 0x1_0000_0000
  {
    SelectPartitions(s.queue, now, s.rtt);
  }

  // ---------- smoothing ----------

  function Samples(s: State, samples: seq<real>): State {
    if samples == [] then s
    else WithSample(Samples(s, samples[..|samples| - 1]), samples[|samples| - 1])
  }

  /** Samples in [0, bound] keep rtt in [0, bound] and jitter within 7/8 of the bound. */
  lemma {:induction false} SmoothingBounds(samples: seq<real>, bound: real)
    requires 0.0 <= bound
    requires forall i :: 0 <= i < |samples| ==> 0.0 <= samples[i] <= bound
    ensures var s := Samples(INIT, samples);
            0.0 <= s.rtt <= bound && -0.875 * bound <= s.jitter <= 0.875 * bound
  {
    if samples != [] {
      SmoothingBounds(samples[..|samples| - 1], bound);
    }
  }

  function Decay(n: nat): real { if n == 0 then 1.0 else 0.875 * Decay(n - 1) }

  // The averages after n samples x, for d = (7/8)^n.
  predicate Steady(s: State, x: real, n: nat, d: real) {
    s.rtt == x * (1.0 - d) && s.jitter == x * (n as real / 8.0) * d
  }

  lemma SteadyStep(s: State, x: real, n: nat, d: real)
    requires Steady(s, x, n, d)
    ensures Steady(WithSample(s, x), x, n + 1, 0.875 * d)
  {
    var m := n as real;
    var xd := x * d;
    assert s.rtt == x - xd;
    assert s.jitter == (m / 8.0) * xd;
    assert x * (0.875 * d) == 0.875 * xd;
    assert x * ((m + 1.0) / 8.0) * (0.875 * d) == ((m + 1.0) / 8.0) * (0.875 * xd);
  }

  /** n equal samples give rtt = x(1 - (7/8)^n) and jitter = x (n/8) (7/8)^n: a perfectly steady
      link still reports a jitter, because the sample is compared with the updated average
      and the average starts at zero. */
  lemma {:induction false} SteadySamples(x: real, n: nat)
    ensures var s := Samples(INIT, seq(n, _ => x));
            Steady(s, x, n, Decay(n))
  {
    if n > 0 {
      SteadySamples(x, n - 1);
      var all := seq(n, _ => x);
      assert all[..n - 1] == seq(n - 1, _ => x);
      SteadyStep(Samples(INIT, all[..n - 1]), x, n - 1, Decay(n - 1));
    }
  }
}
