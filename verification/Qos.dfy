/** The quality-of-service protocol of 04-30_nwchecker_refactor/nwc_qos_protocol.c:
    a queue of sent packages, acknowledgement matching, loss expiry and smoothed
    round-trip time and jitter. The clock is a parameter of every call. */
module Qos {
  import opened Sequences
  import opened Words

  // A package on the sent queue. The id stands for the address of the allocated package.
  datatype Entry = Entry(id: nat, timestamp: uint32)

  datatype Header = Header(timestamp: uint32, ackTimestamp: uint32, recvDelay: uint32, length: uint32)

  // The acknowledgement of a package stamped ackTs, sent at clock now.
  function AckPackage(ackTs: uint32, recvDelay: uint32, now: uint32): Header { Header(now, ackTs, recvDelay, 4) }

  datatype State = State(rtt: real, jitter: real,
                         lossPackages: uint32, sentPackages: uint32, sentBytes: uint32,
                         lastStat: uint32, queue: seq<Entry>)

  const STAT_INTERVAL := 1000
  const HEADER_LEN := 16

  // The payload of the packages a client sends.
  const PAYLOAD: uint32 := 1300

  const INIT := State(0.0, 0.0, 0, 0, 0, 0, [])

  // ---------- acknowledgement matching ----------

  // The position of the oldest entry stamped ts, or |queue| when there is none.
  function FirstStamped(queue: seq<Entry>, ts: uint32): (k: nat)
    ensures k <= |queue|
    ensures k < |queue| ==> queue[k].timestamp == ts
    ensures forall j :: 0 <= j < k ==> queue[j].timestamp != ts
  {
    if queue == [] then 0
    else if queue[0].timestamp == ts then 0
    else 1 + FirstStamped(queue[1..], ts)
  }

  function Smooth(average: real, sample: real): real { average * 0.875 + sample * 0.125 }

  function Sample(ack: Header, recvTs: uint32): real {
    Sub32(recvTs, ack.ackTimestamp) as real - ack.recvDelay as real
  }

  function WithSample(s: State, sample: real): State {
    var rtt := Smooth(s.rtt, sample);
    s.(rtt := rtt, jitter := Smooth(s.jitter, sample - rtt))
  }

  // A package is matched only when its acknowledged timestamp is nonzero and still queued.
  predicate Matches(s: State, ack: Header) {
    ack.ackTimestamp != 0 && FirstStamped(s.queue, ack.ackTimestamp) < |s.queue|
  }

  function AfterAck(s: State, ack: Header, recvTs: uint32): State {
    if !Matches(s, ack) then s
    else
      WithSample(s, Sample(ack, recvTs)).(queue := Without(s.queue, FirstStamped(s.queue, ack.ackTimestamp)))
  }

  /** What an acknowledgement does, in full: nothing when it acknowledges stamp 0 or a stamp that is not queued;
      otherwise the first entry k with that stamp leaves the queue, the sample is the time since the stamp on the
      wrapping clock less the delay the peer reports, and both averages move an eighth of the way to what they
      smooth, the jitter with the round-trip time already updated. */
  lemma AckMeans(s: State, ack: Header, recvTs: uint32) returns (k: nat)
    ensures k <= |s.queue| && forall j :: 0 <= j < k ==> s.queue[j].timestamp != ack.ackTimestamp
    ensures k < |s.queue| ==> s.queue[k].timestamp == ack.ackTimestamp
    ensures var t := AfterAck(s, ack, recvTs);
            if ack.ackTimestamp == 0 || k == |s.queue| then t == s
            else
              var sample := ((recvTs - ack.ackTimestamp) % 0x1_0000_0000 - ack.recvDelay) as real;
              t == s.(queue := s.queue[..k] + s.queue[k + 1..],
                      rtt := 0.875 * s.rtt + 0.125 * sample,
                      jitter := 0.875 * s.jitter + 0.125 * (sample - t.rtt))
  {
    k := FirstStamped(s.queue, ack.ackTimestamp);
  }

  // ---------- creation ----------

  function AfterCreate(s: State, e: Entry, length: uint32): State {
    s.(queue := s.queue + [e],
       sentPackages := Add32(s.sentPackages, 1),
       sentBytes := Add32(s.sentBytes, HEADER_LEN + length))
  }

  // ---------- loss expiry ----------

  predicate Expired(e: Entry, now: uint32, rtt: real) { Sub32(now, e.timestamp) as real > rtt }

  // The entries that expire (gone) or stay (!gone), in queue order.
  function Select(queue: seq<Entry>, now: uint32, rtt: real, gone: bool): seq<Entry> {
    Except(queue, e => Expired(e, now, rtt) != gone)
  }

  predicate ResetDue(s: State, now: uint32) { AsInt32(Sub32(now, s.lastStat)) >= STAT_INTERVAL }

  function AfterStat(s: State, now: uint32): State {
    if s.lastStat == 0 then s.(lastStat := now)
    else
      var swept := s.(queue := Select(s.queue, now, s.rtt, false));
      if ResetDue(s, now) then
        swept.(lossPackages := 0, sentPackages := 0, sentBytes := 0, lastStat := now)
      else
        swept.(lossPackages := Add32(s.lossPackages, |Select(s.queue, now, s.rtt, true)|))
  }

  // The first call only remembers when it was made.
  lemma FirstStatOnlyStarts(s: State, now: uint32)
    requires s.lastStat == 0
    ensures var t := AfterStat(s, now);
            && t.lastStat == now && t.queue == s.queue && t.rtt == s.rtt && t.jitter == s.jitter
            && t.lossPackages == s.lossPackages && t.sentPackages == s.sentPackages && t.sentBytes == s.sentBytes
  {
  }

  // One more entry seen: it joins exactly one of the two selections.
  lemma SelectStep(queue: seq<Entry>, k: nat, now: uint32, rtt: real)
    requires k < |queue|
    ensures Expired(queue[k], now, rtt) ==>
              Select(queue[..k + 1], now, rtt, true) == Select(queue[..k], now, rtt, true) + [queue[k]]
              && Select(queue[..k + 1], now, rtt, false) == Select(queue[..k], now, rtt, false)
    ensures !Expired(queue[k], now, rtt) ==>
              Select(queue[..k + 1], now, rtt, false) == Select(queue[..k], now, rtt, false) + [queue[k]]
              && Select(queue[..k + 1], now, rtt, true) == Select(queue[..k], now, rtt, true)
  {
    ExceptStep(queue, e => Expired(e, now, rtt) != true, k);
    ExceptStep(queue, e => Expired(e, now, rtt) != false, k);
  }

  // The state of a sweep that has seen the first `seen` entries of `was` and stands at `pos` of the queue.
  ghost predicate Swept(was: seq<Entry>, seen: nat, now: uint32, rtt: real, queue: seq<Entry>, pos: nat, gone: nat) {
    && seen <= |was|
    && queue == Select(was[..seen], now, rtt, false) + was[seen..]
    && pos == |Select(was[..seen], now, rtt, false)|
    && gone == |Select(was[..seen], now, rtt, true)|
  }

  lemma SweepStep(was: seq<Entry>, seen: nat, now: uint32, rtt: real, queue: seq<Entry>, pos: nat, gone: nat)
    requires Swept(was, seen, now, rtt, queue, pos, gone) && pos < |queue|
    ensures seen < |was|
    ensures Expired(queue[pos], now, rtt) ==> Swept(was, seen + 1, now, rtt, Without(queue, pos), pos, gone + 1)
    ensures !Expired(queue[pos], now, rtt) ==> Swept(was, seen + 1, now, rtt, queue, pos + 1, gone)
  {
    var kept := Select(was[..seen], now, rtt, false);
    SelectStep(was, seen, now, rtt);
    assert was[seen..] == [was[seen]] + was[seen + 1..];
    assert queue == kept + ([was[seen]] + was[seen + 1..]) == (kept + [was[seen]]) + was[seen + 1..];
  }

  // ---------- the protocol object ----------

  class QosProtocol {
    var rtt: real
    var jitter: real
    var lossPackages: uint32
    var sentPackages: uint32
    var sentBytes: uint32
    var lastStat: uint32
    var sentQueue: seq<Entry>
    var nextId: nat

    ghost function Value(): State
      reads this
    {
      State(rtt, jitter, lossPackages, sentPackages, sentBytes, lastStat, sentQueue)
    }

    constructor ()
      ensures Value() == INIT && nextId == 0
    {
      rtt, jitter := 0.0, 0.0;
      lossPackages, sentPackages, sentBytes, lastStat := 0, 0, 0, 0;
      sentQueue, nextId := [], 0;
    }

    // The new package is queued before its timestamp is known: malloc leaves junk in it.
    method CreatePackage(length: uint32, junk: uint32) returns (id: nat)
      modifies this
      ensures id == old(nextId) && nextId == id + 1
      ensures Value() == AfterCreate(old(Value()), Entry(id, junk), length)
    {
      id := nextId;
      nextId := nextId + 1;
      sentQueue := sentQueue + [Entry(id, junk)];
      sentPackages := Add32(sentPackages, 1);
      sentBytes := Add32(sentBytes, HEADER_LEN + length);
    }

    // The sender stamps the package it just created; the queue holds a pointer to that package.
    method Stamp(now: uint32)
      requires sentQueue != []
      modifies this`sentQueue
      ensures var last := |old(sentQueue)| - 1;
              sentQueue == old(sentQueue)[..last] + [Entry(old(sentQueue)[last].id, now)]
    {
      var last := |sentQueue| - 1;
      sentQueue := sentQueue[last := sentQueue[last].(timestamp := now)];
    }

    method GetPackageEntry(ackTs: uint32) returns (k: nat)
      ensures k == FirstStamped(sentQueue, ackTs)
    {
      k := 0;
      while k < |sentQueue|
        invariant k <= |sentQueue|
        invariant FirstStamped(sentQueue, ackTs) == k + FirstStamped(sentQueue[k..], ackTs)
      {
        if sentQueue[k].timestamp == ackTs {
          return;
        }
        assert sentQueue[k..][1..] == sentQueue[k + 1..];
        k := k + 1;
      }
    }

    method ProcessPackage(ack: Header, recvTs: uint32)
      modifies this
      ensures Value() == AfterAck(old(Value()), ack, recvTs) && nextId == old(nextId)
    {
      if ack.ackTimestamp == 0 {
        return;
      }
      var k := GetPackageEntry(ack.ackTimestamp);
      if k == |sentQueue| {
        return;
      }
      var sample := Sub32(recvTs, ack.ackTimestamp) as real;
      sample := sample - ack.recvDelay as real;
      rtt := rtt * 0.875 + sample * 0.125;
      jitter := jitter * 0.875 + (sample - rtt) * 0.125;
      sentQueue := sentQueue[..k] + sentQueue[k + 1..];
    }

    // The loss loop of Stat: a safe traversal of the sent queue that unlinks expired entries.
    method SweepExpired(now: uint32)
      modifies this`sentQueue, this`lossPackages
      ensures sentQueue == Select(old(sentQueue), now, rtt, false)
      ensures lossPackages == Add32(old(lossPackages), |Select(old(sentQueue), now, rtt, true)|)
    {
      var pos: nat := 0;
      ghost var seen: nat, gone: nat := 0, 0;
      assert sentQueue[..0] == [] && sentQueue[0..] == sentQueue;
      while pos < |sentQueue|
        invariant Swept(old(sentQueue), seen, now, rtt, sentQueue, pos, gone)
        invariant lossPackages == Add32(old(lossPackages), gone)
        decreases |old(sentQueue)| - seen
      {
        pos, gone := VisitEntry(now, old(sentQueue), old(lossPackages), seen, pos, gone);
        seen := seen + 1;
      }
      assert old(sentQueue)[..seen] == old(sentQueue);
    }

    // One round: an expired entry is counted and unlinked, a young one passed.
    method VisitEntry(now: uint32, ghost was: seq<Entry>, ghost lossBefore: uint32, ghost seen: nat, pos: nat,
                      ghost gone: nat) returns (n: nat, ghost more: nat)
      requires Swept(was, seen, now, rtt, sentQueue, pos, gone) && pos < |sentQueue|
      requires lossPackages == Add32(lossBefore, gone)
      modifies this`sentQueue, this`lossPackages
      ensures seen < |was| && Swept(was, seen + 1, now, rtt, sentQueue, n, more)
      ensures lossPackages == Add32(lossBefore, more)
    {
      n, more := pos + 1, gone;
      SweepStep(was, seen, now, rtt, sentQueue, pos, gone);
      if Expired(sentQueue[pos], now, rtt) {
        Add32Succ(lossBefore, gone);
        lossPackages := Add32(lossPackages, 1);
        sentQueue := Without(sentQueue, pos);
        n, more := pos, gone + 1;
      }
    }

    method Stat(now: uint32)
      modifies this
      ensures Value() == AfterStat(old(Value()), now) && nextId == old(nextId)
    {
      if lastStat == 0 {
        lastStat := now;
        return;
      }
      SweepExpired(now);
      if AsInt32(Sub32(now, lastStat)) >= STAT_INTERVAL {
        sentBytes := 0;
        lossPackages := 0;
        sentPackages := 0;
        lastStat := now;
      }
    }
  }
}
