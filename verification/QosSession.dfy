/** A client, two FIFO links and a server running the quality-of-service protocol end to end:
    nwc_connection_on_send and nwc_connection_on_recv drive nwc_qos_protocol.c on both sides
    over links that deliver whole packages in order. */
module QosSession {
  import opened Sequences
  import opened Words
  import opened Qos
  import opened QosRuns

  /** An acknowledgement on the wire. The origin is the package it answers, and held the time from the server's receive
      to its reply: bookkeeping, never read by a step. */
  datatype Reply = Reply(origin: Entry, held: int, header: Header)

  /** server holds the packages of one on_recv call that are not acknowledged yet, recvTs the clock when that
      call received them. blocked is a client whose send returned -EAGAIN, and unanswered holds the package
      whose answer the server could not send for the same reason: can_send stays 0 then (TcpStack proves that
      nothing sets it again), so the server answers no more. */
  datatype Session = Session(clock: uint32, client: Ledger, blocked: bool, data: seq<Entry>,
                             server: seq<Entry>, unanswered: seq<Entry>, recvTs: uint32, acks: seq<Reply>)

  datatype Action =
    | Tick(now: uint32)
    | Send
    | SendBlocked
    | ServerReceive(count: nat)
    | ServerReply
    | ServerReplyBlocked
    | ClientReceive
    | ClientStat

  function Start(clock: uint32): Session {
    Session(clock, START, false, [], [], [], 0, [])
  }

  predicate Enabled(s: Session, act: Action) {
    match act
    case Tick(now) => s.clock <= now
    case Send => !s.blocked
    case SendBlocked => !s.blocked
    case ServerReceive(count) => s.server == [] && 0 < count <= |s.data|
    case ServerReply => s.server != [] && s.unanswered == []
    case ServerReplyBlocked => s.server != [] && s.unanswered == []
    case ClientReceive => s.acks != []
    case ClientStat => true
  }

  // An action that is not enabled leaves the session as it is, so every list of actions is a run.
  function Step(s: Session, act: Action): Session {
    if !Enabled(s, act) then s
    else
      match act
      case Tick(now) => s.(clock := now)
      case Send =>
        s.(client := Apply(s.client, Create(PAYLOAD, s.clock)), data := s.data + [Entry(s.client.created, s.clock)])
      case SendBlocked =>
        s.(client := Apply(s.client, Create(PAYLOAD, s.clock)), blocked := true)
      case ServerReceive(count) =>
        s.(server := s.data[..count], data := s.data[count..], recvTs := s.clock)
      case ServerReply =>
        var p := s.server[0];
        s.(server := s.server[1..],
           acks := s.acks + [Reply(p, s.clock - s.recvTs,
                                   AckPackage(p.timestamp, Sub32(s.clock, s.recvTs), s.clock))])
      case ServerReplyBlocked => s.(server := s.server[1..], unanswered := [s.server[0]])
      case ClientReceive =>
        s.(client := Apply(s.client, Ack(s.acks[0].header, s.clock)), acks := s.acks[1..])
      case ClientStat => s.(client := Apply(s.client, Stat(s.clock)))
  }

  function Exec(clock: uint32, acts: seq<Action>): Session {
    if acts == [] then Start(clock)
    else Step(Exec(clock, acts[..|acts| - 1]), acts[|acts| - 1])
  }

  // ---------- the invariant ----------

  function Origins(acks: seq<Reply>): seq<Entry> { seq(|acks|, i requires 0 <= i < |acks| => acks[i].origin) }

  // Everything between the client's send and the client's receive, oldest first.
  function Flight(s: Session): seq<Entry> { Origins(s.acks) + s.unanswered + s.server + s.data }

  /** How the sent queue relates to what is in flight: the first `lost` packages in flight have been
      counted lost, `stale` are answered packages stamped 0 (such an answer is ignored),
      and `unsent` is a package whose send would have blocked. */
  datatype View = View(stale: seq<Entry>, lost: nat, unsent: seq<Entry>)

  ghost predicate Sorted(q: seq<Entry>) { forall i, j :: 0 <= i < j < |q| ==> q[i].timestamp <= q[j].timestamp }

  ghost predicate Before(a: seq<Entry>, b: seq<Entry>) {
    forall i, j :: 0 <= i < |a| && 0 <= j < |b| ==> a[i].timestamp < b[j].timestamp
  }

  ghost predicate StampedBy(q: seq<Entry>, clock: uint32) {
    forall i :: 0 <= i < |q| ==> q[i].timestamp <= clock
  }

  ghost predicate QueueInv(flight: seq<Entry>, queue: seq<Entry>, v: View) {
    && v.lost <= |flight|
    && queue == v.stale + flight[v.lost..] + v.unsent
    && Sorted(flight + v.unsent)
    && (forall i :: 0 <= i < |v.stale| ==> v.stale[i].timestamp == 0)
    && Before(flight[..v.lost], queue)
  }

  ghost predicate LostInv(flight: seq<Entry>, v: View, lost: seq<nat>, clock: uint32)
    requires v.lost <= |flight|
  {
    forall i :: 0 <= i < v.lost ==> flight[i].id in lost && flight[i].timestamp < clock
  }

  ghost predicate ClockInv(s: Session) {
    && StampedBy(Flight(s), s.clock) && StampedBy(s.client.s.queue, s.clock)
    && (forall i :: 0 <= i < |s.acks| ==>
          s.acks[i].header.ackTimestamp == s.acks[i].origin.timestamp
          && s.acks[i].header.recvDelay == s.acks[i].held
          && s.acks[i].origin.timestamp + s.acks[i].held <= s.clock)
    && StampedBy(s.server, s.recvTs) && s.recvTs <= s.clock
    && s.client.s.rtt >= 0.0
  }

  ghost predicate Inv(s: Session, v: View) {
    && QueueInv(Flight(s), s.client.s.queue, v)
    && (!s.blocked ==> v.unsent == [])
    && LostInv(Flight(s), v, s.client.lost, s.clock)
    && ClockInv(s)
    && Conserved(s.client)
  }

  // ---------- expiry of a sorted queue ----------

  // Expiry takes the first d entries and leaves the others.
  ghost predicate CutAt(q: seq<Entry>, d: nat, now: uint32, rtt: real) {
    && d <= |q|
    && Select(q, now, rtt, true) == q[..d] && Select(q, now, rtt, false) == q[d..]
    && forall i :: 0 <= i < |q| ==> (Expired(q[i], now, rtt) <==> i < d)
  }

  lemma SelectSnoc(q: seq<Entry>, e: Entry, now: uint32, rtt: real)
    ensures Select(q + [e], now, rtt, true) == Select(q, now, rtt, true) + (if Expired(e, now, rtt) then [e] else [])
    ensures Select(q + [e], now, rtt, false) == Select(q, now, rtt, false) + (if Expired(e, now, rtt) then [] else [e])
  {
    assert (q + [e])[..|q|] == q && (q + [e])[..|q| + 1] == q + [e];
    SelectStep(q + [e], |q|, now, rtt);
  }

  lemma CutWhenExpired(q: seq<Entry>, e: Entry, d: nat, now: uint32, rtt: real)
    requires CutAt(q, d, now, rtt) && Expired(e, now, rtt)
    requires forall i :: 0 <= i < |q| ==> q[i].timestamp <= e.timestamp <= now
    ensures CutAt(q + [e], |q| + 1, now, rtt)
  {
    forall i | 0 <= i < |q|
      ensures Expired(q[i], now, rtt)
    {
      OlderExpiresFirst(q[i], e, now, rtt);
    }
    assert d == |q| && q[..d] == q && q[d..] == [];
    SelectSnoc(q, e, now, rtt);
    assert (q + [e])[..|q| + 1] == q + [e] && (q + [e])[|q| + 1..] == [] && [] + [] == q[d..];
  }

  lemma CutWhenYoung(q: seq<Entry>, e: Entry, d: nat, now: uint32, rtt: real)
    requires CutAt(q, d, now, rtt) && !Expired(e, now, rtt)
    ensures CutAt(q + [e], d, now, rtt)
  {
    SelectSnoc(q, e, now, rtt);
    assert (q + [e])[..d] == q[..d] && q[..d] + [] == q[..d] && (q + [e])[d..] == q[d..] + [e];
  }

  /** On a queue sorted by timestamp, none later than now, expiry takes a prefix. */
  lemma {:induction false} ExpiryIsPrefix(q: seq<Entry>, now: uint32, rtt: real) returns (d: nat)
    requires Sorted(q) && StampedBy(q, now)
    ensures CutAt(q, d, now, rtt)
  {
    if q == [] {
      d := 0;
    } else {
      var last := |q| - 1;
      var p, e := q[..last], q[last];
      assert q == p + [e] && forall i :: 0 <= i < last ==> p[i] == q[i];
      d := ExpiryIsPrefix(p, now, rtt);
      if Expired(e, now, rtt) {
        CutWhenExpired(p, e, d, now, rtt);
        d := |q|;
      } else {
        CutWhenYoung(p, e, d, now, rtt);
      }
    }
  }

  lemma ExpiredIsStrictlyOlder(a: Entry, b: Entry, now: uint32, rtt: real)
    requires a.timestamp <= now && b.timestamp <= now
    requires Expired(a, now, rtt) && !Expired(b, now, rtt)
    ensures a.timestamp < b.timestamp
  {
    if b.timestamp <= a.timestamp {
      OlderExpiresFirst(b, a, now, rtt);
    }
  }

  lemma OlderExpiresFirst(a: Entry, b: Entry, now: uint32, rtt: real)
    requires a.timestamp <= b.timestamp <= now
    ensures Expired(b, now, rtt) ==> Expired(a, now, rtt)
  {
    assert Sub32(now, b.timestamp) <= Sub32(now, a.timestamp);
  }

  // ---------- every step keeps the invariant ----------

  lemma FlightAfterReply(s: Session, act: Action)
    requires Enabled(s, act) && (act.ServerReply? || act.ServerReplyBlocked?)
    ensures Flight(Step(s, act)) == Flight(s)
  {
    var o, first, rest := Origins(s.acks), [s.server[0]], s.server[1..];
    assert s.server == first + rest && o + [] == o;
    Regroup(o, first, rest);
    if act.ServerReply? {
      assert Origins(Step(s, act).acks) == o + first && (o + first) + [] == o + first;
    }
  }

  lemma FlightAfterServerReceive(s: Session, count: nat)
    requires Enabled(s, ServerReceive(count))
    ensures Flight(Step(s, ServerReceive(count))) == Flight(s)
  {
    var o, now, later := Origins(s.acks) + s.unanswered, s.data[..count], s.data[count..];
    assert s.data == now + later && o + [] == o;
    Regroup(o, now, later);
  }

  lemma FlightAfterClientReceive(s: Session)
    requires s.acks != []
    ensures Flight(s) != [] && Flight(Step(s, ClientReceive)) == Flight(s)[1..]
  {
    var first, rest := [s.acks[0].origin], Origins(s.acks[1..]);
    assert Origins(s.acks) == first + rest;
    Regroup(first, rest, s.unanswered);
    Regroup(first, rest + s.unanswered, s.server);
    Regroup(first, rest + s.unanswered + s.server, s.data);
  }

  lemma FlightAfter(s: Session, act: Action)
    requires Enabled(s, act)
    ensures act.Send? ==> Flight(Step(s, act)) == Flight(s) + [Entry(s.client.created, s.clock)]
    ensures act.ServerReceive? || act.ServerReply? || act.ServerReplyBlocked? ==> Flight(Step(s, act)) == Flight(s)
    ensures act.ClientReceive? ==> Flight(s) != [] && Flight(Step(s, act)) == Flight(s)[1..]
  {
    match act
    case Send =>
      Regroup(Origins(s.acks) + s.unanswered + s.server, s.data, [Entry(s.client.created, s.clock)]);
    case ServerReceive(count) => FlightAfterServerReceive(s, count);
    case ClientReceive => FlightAfterClientReceive(s);
    case _ =>
      if act.ServerReply? || act.ServerReplyBlocked? {
        FlightAfterReply(s, act);
      }
  }

  lemma SortedSnoc(q: seq<Entry>, e: Entry)
    requires Sorted(q) && StampedBy(q, e.timestamp)
    ensures Sorted(q + [e])
  {
  }

  lemma SendKeeps(s: Session, v: View)
    requires Inv(s, v) && !s.blocked
    ensures Inv(Step(s, Send), v)
  {
    FlightAfter(s, Send);
    CreateConserves(s.client, PAYLOAD, s.clock);
    var flight, e := Flight(s), Entry(s.client.created, s.clock);
    assert flight + [] == flight && (flight + [e]) + [] == flight + [e];
    SortedSnoc(flight, e);
    assert (flight + [e])[v.lost..] == flight[v.lost..] + [e];
    assert (flight + [e])[..v.lost] == flight[..v.lost];
  }

  lemma SendBlockedKeeps(s: Session, v: View)
    requires Inv(s, v) && !s.blocked
    ensures Inv(Step(s, SendBlocked), v.(unsent := [Entry(s.client.created, s.clock)]))
  {
    CreateConserves(s.client, PAYLOAD, s.clock);
    assert Flight(s) + [] == Flight(s);
    SortedSnoc(Flight(s), Entry(s.client.created, s.clock));
  }

  lemma ServerReceiveKeeps(s: Session, v: View, count: nat)
    requires Inv(s, v) && Enabled(s, ServerReceive(count))
    ensures Inv(Step(s, ServerReceive(count)), v)
  {
    FlightAfter(s, ServerReceive(count));
    assert forall i :: 0 <= i < |s.data| ==> s.data[i] == Flight(s)[|s.acks| + |s.unanswered| + i];
  }

  lemma ServerReplyKeeps(s: Session, v: View)
    requires Inv(s, v) && Enabled(s, ServerReply)
    ensures Inv(Step(s, ServerReply), v)
    ensures var p, held := s.server[0], s.clock - s.recvTs;
            Step(s, ServerReply).acks == s.acks + [Reply(p, held, Header(s.clock, p.timestamp, held, 4))]
  {
    FlightAfter(s, ServerReply);
    var p := s.server[0];
    assert p.timestamp <= s.recvTs <= s.clock;
    assert Sub32(s.clock, s.recvTs) == s.clock - s.recvTs;
  }

  lemma ServerReplyBlockedKeeps(s: Session, v: View)
    requires Inv(s, v) && Enabled(s, ServerReplyBlocked)
    ensures Inv(Step(s, ServerReplyBlocked), v)
  {
    FlightAfter(s, ServerReplyBlocked);
  }

  // ---------- receiving an acknowledgement ----------

  /** What the head acknowledgement finds: nothing when its package was counted lost or stamped 0,
      otherwise its own package, the oldest one not answered. */
  lemma AckFinds(s: Session, v: View)
    requires Inv(s, v) && s.acks != []
    ensures var a := s.acks[0];
            && (v.lost > 0 ==> !Matches(s.client.s, a.header) && a.origin.id in s.client.lost)
            && (v.lost == 0 && a.origin.timestamp != 0 ==>
                  Matches(s.client.s, a.header)
                  && FirstStamped(s.client.s.queue, a.header.ackTimestamp) == |v.stale|
                  && s.client.s.queue[|v.stale|] == a.origin)
  {
    var q, a := s.client.s.queue, s.acks[0];
    assert Flight(s)[0] == a.origin;
    if v.lost > 0 {
      assert Flight(s)[..v.lost][0] == a.origin;
    } else {
      assert q[|v.stale|] == a.origin;
      assert forall i :: 0 <= i < |v.stale| ==> q[i].timestamp == 0;
    }
  }

  /** The sample is the time since the package was stamped, less the time the server held it: never negative. */
  lemma SampleIsElapsedMinusDelay(s: Session, v: View)
    requires Inv(s, v) && s.acks != []
    ensures var a := s.acks[0];
            Sample(a.header, s.clock) == (s.clock - a.origin.timestamp - a.held) as real >= 0.0
  {
    var h := s.acks[0].header;
    assert s.acks[0].origin.timestamp + s.acks[0].held <= s.clock;
    assert Sub32(s.clock, h.ackTimestamp) == s.clock - h.ackTimestamp;
  }

  function ViewAfterReceive(s: Session, v: View): View
    requires s.acks != []
  {
    if v.lost > 0 then v.(lost := v.lost - 1)
    else if s.acks[0].origin.timestamp == 0 then v.(stale := v.stale + [s.acks[0].origin])
    else v
  }

  lemma TailSorted(flight: seq<Entry>, unsent: seq<Entry>)
    requires flight != [] && Sorted(flight + unsent)
    ensures Sorted(flight[1..] + unsent)
  {
    assert (flight + unsent)[1..] == flight[1..] + unsent;
  }

  lemma QueueWhenLost(flight: seq<Entry>, q: seq<Entry>, v: View)
    requires QueueInv(flight, q, v) && v.lost > 0
    ensures QueueInv(flight[1..], q, v.(lost := v.lost - 1))
  {
    TailSorted(flight, v.unsent);
    assert flight[1..][v.lost - 1..] == flight[v.lost..];
    assert flight[1..][..v.lost - 1] == flight[..v.lost][1..];
  }

  lemma QueueWhenStale(flight: seq<Entry>, q: seq<Entry>, v: View)
    requires QueueInv(flight, q, v) && v.lost == 0 && flight != [] && flight[0].timestamp == 0
    ensures QueueInv(flight[1..], q, v.(stale := v.stale + [flight[0]]))
  {
    TailSorted(flight, v.unsent);
    assert flight[0..] == [flight[0]] + flight[1..];
    assert flight[1..][0..] == flight[1..];
    assert q == (v.stale + [flight[0]]) + flight[1..] + v.unsent;
  }

  lemma QueueWhenAnswered(flight: seq<Entry>, q: seq<Entry>, v: View)
    requires QueueInv(flight, q, v) && v.lost == 0 && flight != []
    ensures |v.stale| < |q| && q[|v.stale|] == flight[0]
    ensures QueueInv(flight[1..], Without(q, |v.stale|), v)
  {
    TailSorted(flight, v.unsent);
    assert flight[0..] == [flight[0]] + flight[1..];
    assert flight[1..][0..] == flight[1..];
    assert q == v.stale + ([flight[0]] + flight[1..] + v.unsent);
    assert Without(q, |v.stale|) == v.stale + flight[1..] + v.unsent;
  }

  lemma ViewKeepsAfterReceive(s: Session, v: View)
    requires Inv(s, v) && s.acks != []
    ensures var next, flight := ViewAfterReceive(s, v), Flight(s)[1..];
            && QueueInv(flight, Step(s, ClientReceive).client.s.queue, next)
            && LostInv(flight, next, s.client.lost, s.clock)
  {
    var flight, q, next := Flight(s), s.client.s.queue, Step(s, ClientReceive).client.s.queue;
    AckFinds(s, v);
    assert flight[0] == s.acks[0].origin;
    if v.lost > 0 {
      assert next == q;
      QueueWhenLost(flight, q, v);
    } else if flight[0].timestamp == 0 {
      assert next == q;
      QueueWhenStale(flight, q, v);
    } else {
      assert next == Without(q, |v.stale|);
      QueueWhenAnswered(flight, q, v);
    }
  }

  // Leaving out elements keeps a bound on the stamps.
  lemma StampsStay(q: seq<Entry>, sub: seq<Entry>, clock: uint32)
    requires StampedBy(q, clock) && forall e :: e in sub ==> e in q
    ensures StampedBy(sub, clock)
  {
    assert forall i :: 0 <= i < |sub| ==> sub[i] in q;
  }

  lemma AckQueueStays(s: Qos.State, ack: Header, recvTs: uint32)
    ensures forall e :: e in AfterAck(s, ack, recvTs).queue ==> e in s.queue
    ensures s.rtt >= 0.0 && Sample(ack, recvTs) >= 0.0 ==> AfterAck(s, ack, recvTs).rtt >= 0.0
  {
  }

  lemma ClockKeepsAfterReceive(s: Session, v: View)
    requires Inv(s, v) && s.acks != []
    ensures ClockInv(Step(s, ClientReceive))
  {
    FlightAfter(s, ClientReceive);
    SampleIsElapsedMinusDelay(s, v);
    AckQueueStays(s.client.s, s.acks[0].header, s.clock);
    var next := Step(s, ClientReceive);
    StampsStay(s.client.s.queue, next.client.s.queue, s.clock);
    StampsStay(Flight(s), Flight(next), s.clock);
    assert forall i :: 0 <= i < |next.acks| ==> next.acks[i] == s.acks[i + 1];
  }

  lemma ReceiveKeeps(s: Session, v: View)
    requires Inv(s, v) && s.acks != []
    ensures Inv(Step(s, ClientReceive), ViewAfterReceive(s, v))
  {
    FlightAfter(s, ClientReceive);
    AckConserves(s.client, s.acks[0].header, s.clock);
    ViewKeepsAfterReceive(s, v);
    ClockKeepsAfterReceive(s, v);
  }

  // ---------- a statistics call ----------

  // Where the cut between expired and young packages falls in the view.
  function ViewAfterExpiry(flight: seq<Entry>, v: View, d: nat): View
    requires v.lost <= |flight| && d <= |v.stale| + |flight| - v.lost + |v.unsent|
  {
    if d <= |v.stale| then v.(stale := v.stale[d..])
    else
      var e := d - |v.stale|;
      if v.lost + e <= |flight| then View([], v.lost + e, v.unsent)
      else View([], |flight|, v.unsent[v.lost + e - |flight|..])
  }

  lemma SortedDropMiddle(a: seq<Entry>, b: seq<Entry>, cut: nat)
    requires Sorted(a + b) && cut <= |b|
    ensures Sorted(a + b[cut..])
  {
    var ab, kept := a + b, a + b[cut..];
    forall i, j | 0 <= i < j < |kept|
      ensures kept[i].timestamp <= kept[j].timestamp
    {
      var i', j' := if i < |a| then i else i + cut, if j < |a| then j else j + cut;
      assert kept[i] == ab[i'] && kept[j] == ab[j'];
    }
  }

  lemma QueueAfterExpiry(flight: seq<Entry>, q: seq<Entry>, v: View, d: nat)
    requires QueueInv(flight, q, v) && d <= |q|
    requires Before(q[..d], q[d..])
    ensures QueueInv(flight, q[d..], ViewAfterExpiry(flight, v, d))
    ensures var next := ViewAfterExpiry(flight, v, d);
            v.lost <= next.lost
            && forall i :: v.lost <= i < next.lost ==>
                 (i - v.lost + |v.stale| < d && flight[i] == q[i - v.lost + |v.stale|])
  {
    var next := ViewAfterExpiry(flight, v, d);
    assert q[d..] == next.stale + flight[next.lost..] + next.unsent;
    assert forall i :: v.lost <= i < next.lost ==> flight[i] == q[i - v.lost + |v.stale|];
    SortedDropMiddle(flight, v.unsent, |v.unsent| - |next.unsent|);
    forall i, j | 0 <= i < next.lost && 0 <= j < |q[d..]|
      ensures flight[..next.lost][i].timestamp < q[d..][j].timestamp
    {
      if i < v.lost {
        assert flight[..v.lost][i].timestamp < q[d + j].timestamp;
      } else {
        assert q[..d][i - v.lost + |v.stale|] == flight[i];
      }
    }
  }

  lemma QueueIsSorted(s: Session, v: View)
    requires Inv(s, v)
    ensures Sorted(s.client.s.queue)
  {
    var q, all := s.client.s.queue, Flight(s) + v.unsent;
    forall i, j | 0 <= i < j < |q|
      ensures q[i].timestamp <= q[j].timestamp
    {
      if i >= |v.stale| {
        var shift := v.lost - |v.stale|;
        assert q[i] == all[i + shift] && q[j] == all[j + shift];
      }
    }
  }

  lemma LostAfterExpiry(flight: seq<Entry>, q: seq<Entry>, v: View, d: nat, lost: seq<nat>, clock: uint32)
    requires QueueInv(flight, q, v) && LostInv(flight, v, lost, clock)
    requires d <= |q| && forall i :: 0 <= i < d ==> q[i].timestamp < clock
    requires var next := ViewAfterExpiry(flight, v, d);
             v.lost <= next.lost <= |flight|
             && forall i :: v.lost <= i < next.lost ==>
                  (i - v.lost + |v.stale| < d && flight[i] == q[i - v.lost + |v.stale|])
    ensures LostInv(flight, ViewAfterExpiry(flight, v, d), lost + Ids(q[..d]), clock)
  {
    var more := lost + Ids(q[..d]);
    forall i | 0 <= i < ViewAfterExpiry(flight, v, d).lost
      ensures flight[i].id in more && flight[i].timestamp < clock
    {
      if i < v.lost {
        assert flight[i].id in lost;
      } else {
        var k := i - v.lost + |v.stale|;
        assert Ids(q[..d])[k] == q[k].id;
        assert more[|lost| + k] == q[k].id;
      }
    }
  }

  lemma CutSeparates(q: seq<Entry>, d: nat, now: uint32, rtt: real)
    requires d <= |q| && StampedBy(q, now) && rtt >= 0.0
    requires forall i :: 0 <= i < |q| ==> (Expired(q[i], now, rtt) <==> i < d)
    ensures Before(q[..d], q[d..])
    ensures forall i :: 0 <= i < d ==> q[i].timestamp < now
  {
    forall i, j | 0 <= i < d && d <= j < |q|
      ensures q[i].timestamp < q[j].timestamp
    {
      ExpiredIsStrictlyOlder(q[i], q[j], now, rtt);
    }
    forall i | 0 <= i < d
      ensures q[i].timestamp < now
    {
      ExpiredIsStrictlyOlder(q[i], Entry(0, now), now, rtt);
    }
  }

  // Which packages a statistics call expires, and that they are strictly older than the rest.
  lemma ExpiryCut(s: Session, v: View) returns (d: nat)
    requires Inv(s, v)
    ensures var q := s.client.s.queue;
            && d <= |q| && Before(q[..d], q[d..])
            && Select(q, s.clock, s.client.s.rtt, true) == q[..d]
            && Select(q, s.clock, s.client.s.rtt, false) == q[d..]
            && forall i :: 0 <= i < d ==> q[i].timestamp < s.clock
  {
    var q, now, rtt := s.client.s.queue, s.clock, s.client.s.rtt;
    QueueIsSorted(s, v);
    d := ExpiryIsPrefix(q, now, rtt);
    CutSeparates(q, d, now, rtt);
  }

  lemma ClockKeepsAfterStat(s: Session, d: nat)
    requires ClockInv(s) && d <= |s.client.s.queue|
    requires Select(s.client.s.queue, s.clock, s.client.s.rtt, false) == s.client.s.queue[d..]
    ensures ClockInv(Step(s, ClientStat))
  {
    StampsStay(s.client.s.queue, s.client.s.queue[d..], s.clock);
    assert Flight(Step(s, ClientStat)) == Flight(s);
  }

  lemma ViewKeepsAfterExpiry(flight: seq<Entry>, q: seq<Entry>, v: View, d: nat, lost: seq<nat>, clock: uint32)
      returns (next: View)
    requires QueueInv(flight, q, v) && LostInv(flight, v, lost, clock)
    requires d <= |q| && Before(q[..d], q[d..]) && forall i :: 0 <= i < d ==> q[i].timestamp < clock
    ensures QueueInv(flight, q[d..], next) && LostInv(flight, next, lost + Ids(q[..d]), clock)
    ensures v.unsent == [] ==> next.unsent == []
  {
    next := ViewAfterExpiry(flight, v, d);
    QueueAfterExpiry(flight, q, v, d);
    LostAfterExpiry(flight, q, v, d, lost, clock);
  }

  // A statistics call that expires the first d entries.
  lemma ExpiryKeeps(s: Session, v: View, d: nat) returns (next: View)
    requires Inv(s, v) && s.client.s.lastStat != 0
    requires var q := s.client.s.queue;
             && d <= |q| && Before(q[..d], q[d..])
             && Select(q, s.clock, s.client.s.rtt, true) == q[..d]
             && Select(q, s.clock, s.client.s.rtt, false) == q[d..]
             && forall i :: 0 <= i < d ==> q[i].timestamp < s.clock
    ensures Inv(Step(s, ClientStat), next)
  {
    var q, after := s.client.s.queue, Step(s, ClientStat);
    StatConserves(s.client, s.clock);
    assert Flight(after) == Flight(s);
    next := ViewKeepsAfterExpiry(Flight(s), q, v, d, s.client.lost, s.clock);
    assert after.client.s.queue == q[d..] && after.client.lost == s.client.lost + Ids(q[..d]);
    ClockKeepsAfterStat(s, d);
  }

  lemma StatKeeps(s: Session, v: View) returns (next: View)
    requires Inv(s, v)
    ensures Inv(Step(s, ClientStat), next)
  {
    if s.client.s.lastStat == 0 {
      StatConserves(s.client, s.clock);
      assert Flight(Step(s, ClientStat)) == Flight(s);
      next := v;
    } else {
      var d := ExpiryCut(s, v);
      next := ExpiryKeeps(s, v, d);
    }
  }

  lemma StepKeeps(s: Session, v: View, act: Action) returns (next: View)
    requires Inv(s, v)
    ensures Inv(Step(s, act), next)
  {
    next := v;
    if Enabled(s, act) {
      match act
      case Tick(now) => assert Flight(Step(s, act)) == Flight(s);
      case Send => SendKeeps(s, v);
      case SendBlocked =>
        SendBlockedKeeps(s, v);
        next := v.(unsent := [Entry(s.client.created, s.clock)]);
      case ServerReceive(count) => ServerReceiveKeeps(s, v, count);
      case ServerReply => ServerReplyKeeps(s, v);
      case ServerReplyBlocked => ServerReplyBlockedKeeps(s, v);
      case ClientReceive =>
        ReceiveKeeps(s, v);
        next := ViewAfterReceive(s, v);
      case ClientStat => next := StatKeeps(s, v);
    }
  }

  lemma {:induction false} EveryRunKeeps(clock: uint32, acts: seq<Action>) returns (v: View)
    ensures Inv(Exec(clock, acts), v)
  {
    if acts == [] {
      v := View([], 0, []);
      EveryRunConserves([]);
      assert Conserved(START);
    } else {
      v := EveryRunKeeps(clock, acts[..|acts| - 1]);
      v := StepKeeps(Exec(clock, acts[..|acts| - 1]), v, acts[|acts| - 1]);
    }
  }

  // ---------- the theorems ----------

  /** In every run, receiving the next acknowledgement does exactly one of two things. If the package
      it answers was counted lost, or was stamped 0, the protocol state does not change.
      Otherwise it removes that very package and no other, the oldest of the queue that carries
      a nonzero stamp, and the averages are fed the time since that package was stamped less the time the
      server held it, which is never negative. Nothing else of the protocol changes. */
  lemma EveryAckFindsItsOwnPackage(clock: uint32, acts: seq<Action>) returns (k: nat)
    requires Exec(clock, acts).acks != []
    ensures var s := Exec(clock, acts);
            var origin, next := s.acks[0].origin, Step(s, ClientReceive).client;
            var sample := (s.clock - origin.timestamp - s.acks[0].held) as real;
            if origin.id in s.client.lost || origin.timestamp == 0 then next == s.client
            else
              && k < |s.client.s.queue| && s.client.s.queue[k] == origin
              && (forall i :: 0 <= i < k ==> s.client.s.queue[i].timestamp == 0)
              && next.acked == s.client.acked + [origin.id] && sample >= 0.0
              && next.s.rtt == 0.875 * s.client.s.rtt + 0.125 * sample
              && next.s.jitter == 0.875 * s.client.s.jitter + 0.125 * (sample - next.s.rtt)
              && next.s == s.client.s.(queue := s.client.s.queue[..k] + s.client.s.queue[k + 1..],
                                       rtt := next.s.rtt, jitter := next.s.jitter)
  {
    var v := EveryRunKeeps(clock, acts);
    var s := Exec(clock, acts);
    AckFinds(s, v);
    SampleIsElapsedMinusDelay(s, v);
    k := |v.stale|;
    var origin := s.acks[0].origin;
    assert Flight(s)[0] == origin;
    if v.lost == 0 {
      QueueWhenAnswered(Flight(s), s.client.s.queue, v);
      assert Ids(s.client.s.queue)[k] == origin.id;
      assert Places(s.client)[origin.id] <= 1;
    }
  }

  /** Once nothing is in flight and no send ever blocked, only packages stamped 0 are still queued:
      every other package was acknowledged or counted lost. */
  lemma QuietSessionIsSettled(clock: uint32, acts: seq<Action>)
    requires Flight(Exec(clock, acts)) == [] && !Exec(clock, acts).blocked
    ensures var c := Exec(clock, acts).client;
            && (forall i :: 0 <= i < |c.s.queue| ==> c.s.queue[i].timestamp == 0)
            && |c.acked| + |c.lost| + |c.s.queue| == c.created
  {
    var v := EveryRunKeeps(clock, acts);
    var flight := Flight(Exec(clock, acts));
    assert flight[v.lost..] == [];
  }

  /** The run in which it happens: a package sent at clock 0 is answered, and the answer changes nothing. */
  lemma StampZeroIsNeverAcknowledged()
    ensures var s := Exec(0, [Send, ServerReceive(1), ServerReply]);
            && |s.acks| == 1 && s.acks[0].origin == Entry(0, 0) && s.client.s.queue == [Entry(0, 0)]
            && Step(s, ClientReceive).client == s.client
  {
    ExecSnoc(0, [], Send);
    ExecSnoc(0, [Send], ServerReceive(1));
    ExecSnoc(0, [Send, ServerReceive(1)], ServerReply);
    assert [] + [Send] == [Send] && [Send] + [ServerReceive(1)] == [Send, ServerReceive(1)];
    assert [Send, ServerReceive(1)] + [ServerReply] == [Send, ServerReceive(1), ServerReply];
  }

  /** One package on idle links, sent at t, received by the server at a, answered at b and acknowledged at c:
      the first sample is the time under way, c - t without the b - a in the server. */
  lemma {:induction false} OneRoundTrip(t: uint32, a: uint32, b: uint32, c: uint32)
    requires 0 < t <= a <= b <= c
    ensures var s := Exec(t, [Send, Tick(a), ServerReceive(1), Tick(b), ServerReply, Tick(c), ClientReceive]);
            var sample := ((c - t) - (b - a)) as real;
            && s.client.s == Qos.State(0.125 * sample, 0.125 * (0.875 * sample), 0, 1, 1316, 0, [])
            && s.client.acked == [0] && s.client.lost == [] && Flight(s) == []
  {
    var e, sent := Entry(0, t), [Send, Tick(a)];
    var received := sent + [ServerReceive(1), Tick(b)];
    var l := Apply(START, Create(PAYLOAD, t));
    ExecTwo(t, [], Send, Tick(a));
    assert [] + sent == sent && [] + [e] == [e];
    assert Exec(t, sent) == Session(a, l, false, [e], [], [], 0, []);
    ExecTwo(t, sent, ServerReceive(1), Tick(b));
    ReceivedAt(l, e, a, b);
    ExecTwo(t, received, ServerReply, Tick(c));
    RepliedAt(l, e, a, b, c);
    ExecSnoc(t, received + [ServerReply, Tick(c)], ClientReceive);
    AcknowledgedAt(l, t, a, b, c);
    assert received + [ServerReply, Tick(c)] + [ClientReceive]
        == [Send, Tick(a), ServerReceive(1), Tick(b), ServerReply, Tick(c), ClientReceive];
  }

  lemma ReceivedAt(l: Ledger, e: Entry, a: uint32, b: uint32)
    requires a <= b
    ensures Step(Step(Session(a, l, false, [e], [], [], 0, []), ServerReceive(1)), Tick(b))
         == Session(b, l, false, [], [e], [], a, [])
  {
    assert [e][..1] == [e] && [e][1..] == [];
  }

  lemma RepliedAt(l: Ledger, e: Entry, a: uint32, b: uint32, c: uint32)
    requires a <= b <= c
    ensures Step(Step(Session(b, l, false, [], [e], [], a, []), ServerReply), Tick(c))
         == Session(c, l, false, [], [], [], a, [Reply(e, b - a, Header(b, e.timestamp, b - a, 4))])
  {
    assert [e][1..] == [] && Sub32(b, a) == b - a;
    var r := Reply(e, b - a, Header(b, e.timestamp, b - a, 4));
    assert [] + [r] == [r];
  }

  lemma AcknowledgedAt(l: Ledger, t: uint32, a: uint32, b: uint32, c: uint32)
    requires 0 < t <= a <= b <= c && l == Apply(START, Create(PAYLOAD, t))
    ensures var h := Header(b, t, b - a, 4);
            var s := Step(Session(c, l, false, [], [], [], a, [Reply(Entry(0, t), b - a, h)]), ClientReceive);
            var sample := ((c - t) - (b - a)) as real;
            && s.client.s == Qos.State(0.125 * sample, 0.125 * (0.875 * sample), 0, 1, 1316, 0, [])
            && s.client.acked == [0] && s.client.lost == [] && Flight(s) == []
  {
    assert l.s.queue == [Entry(0, t)] && FirstStamped(l.s.queue, t) == 0;
    assert Without(l.s.queue, 0) == [] && Sub32(c, t) == c - t;
  }

  // ---------- every session can settle ----------

  // How far the packages in flight still have to go.
  function Distance(s: Session): nat { 3 * |s.data| + 2 * |s.server| + |s.acks| }

  // The next step of a package in flight.
  function Onward(s: Session): Action {
    if s.acks != [] then ClientReceive
    else if s.server != [] then ServerReply
    else ServerReceive(|s.data|)
  }

  lemma OnwardStep(s: Session)
    requires s.unanswered == [] && !s.blocked && Flight(s) != []
    ensures Enabled(s, Onward(s)) && Distance(Step(s, Onward(s))) < Distance(s)
    ensures var t := Step(s, Onward(s)); t.unanswered == [] && !t.blocked && t.client.created == s.client.created
  {
  }

  /** From every reachable state in which nothing has blocked, the packages in flight can all be answered and
      acknowledged, without another send: then only packages stamped 0 are left, and every other one is
      acknowledged or counted lost. */
  lemma {:induction false} EverySessionCanSettle(clock: uint32, acts: seq<Action>) returns (more: seq<Action>)
    requires var s := Exec(clock, acts); s.unanswered == [] && !s.blocked
    ensures forall i :: 0 <= i < |more| ==> more[i].ClientReceive? || more[i].ServerReply? || more[i].ServerReceive?
    ensures var c := Exec(clock, acts + more).client;
            && Flight(Exec(clock, acts + more)) == [] && c.created == Exec(clock, acts).client.created
            && (forall i :: 0 <= i < |c.s.queue| ==> c.s.queue[i].timestamp == 0)
            && |c.acked| + |c.lost| + |c.s.queue| == c.created
    decreases Distance(Exec(clock, acts))
  {
    var s := Exec(clock, acts);
    if Flight(s) == [] {
      more := [];
      assert acts + more == acts;
      QuietSessionIsSettled(clock, acts);
    } else {
      OnwardStep(s);
      ExecSnoc(clock, acts, Onward(s));
      var rest := EverySessionCanSettle(clock, acts + [Onward(s)]);
      more := [Onward(s)] + rest;
      Regroup(acts, [Onward(s)], rest);
    }
  }

  lemma {:induction false} ExecTwo(clock: uint32, acts: seq<Action>, first: Action, second: Action)
    ensures Exec(clock, acts + [first, second]) == Step(Step(Exec(clock, acts), first), second)
  {
    var once, twice := acts + [first], acts + [first, second];
    assert twice[..|twice| - 1] == once && once[..|once| - 1] == acts;
  }

  lemma {:induction false} ExecSnoc(clock: uint32, acts: seq<Action>, act: Action)
    ensures Exec(clock, acts + [act]) == Step(Exec(clock, acts), act)
  {
    assert (acts + [act])[..|acts|] == acts;
  }
}
