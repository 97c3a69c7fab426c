/** The per-connection sender of java_netprogramming/src/com/haska/nonblock/NonblockTCPServer.java: partial writes
    of a length-prefixed response resumed from a ByteBuffer, driven by the selector's event branches. */
module NonblockClient {
  import opened Sequences
  import opened Words

  const SEND_BUFF_LEN := 1024

  // The interest set of the key: OP_READ and OP_WRITE.
  datatype Ops = Ops(read: bool, write: bool)

  predicate Sendable(resp: seq<byte>) { |resp| < 0x8000_0000 }

  predicate AllSendable(resps: seq<seq<byte>>) { forall i :: 0 <= i < |resps| ==> Sendable(resps[i]) }

  // A response on the wire: its length as an int, then its bytes.
  function Frame(resp: seq<byte>): seq<byte>
    requires Sendable(resp)
  {
    BigEndian32(|resp|) + resp
  }

  function Framed(resps: seq<seq<byte>>): seq<seq<byte>>
    requires AllSendable(resps)
  {
    seq(|resps|, i requires 0 <= i < |resps| => Frame(resps[i]))
  }

  // ---------- what the sender does ----------

  /** One iteration of the event loop for a key: readable with what recvData returned, or writable. resp is the
      response composed if a new one is due, accepts the most bytes the channel takes. */
  datatype Event =
    | Readable(recvOk: bool, resp: seq<byte>, accepts: nat)
    | Writable(resp: seq<byte>, accepts: nat)
  {
    predicate Fails() { Readable? && !recvOk }
  }

  /** The responses put into the buffer so far, how many bytes of the last one are unsent, and whether the
      connection was closed or a put ran past the limit: that exception ends the event loop. */
  datatype Sender = Sender(responses: seq<seq<byte>>, pending: nat, closed: bool, overflowed: bool)

  // The limit the last response left, or the one before it: rewind, unlike clear, keeps it.
  function Limit(limit: nat, resps: seq<seq<byte>>): nat {
    if resps == [] then limit else 4 + |resps[|resps| - 1]|
  }

  function LimitOf(s: Sender): nat { Limit(SEND_BUFF_LEN, s.responses) }

  // The event finds can_send and composes a new response.
  predicate Takes(s: Sender, e: Event) { !s.closed && !s.overflowed && !e.Fails() && s.pending == 0 }

  function Flushed(s: Sender, accepts: nat): Sender {
    s.(pending := if accepts < s.pending then s.pending - accepts else 0)
  }

  function Sent(s: Sender, resp: seq<byte>, accepts: nat): Sender {
    if s.pending > 0 then Flushed(s, accepts)
    else if 4 + |resp| > LimitOf(s) then s.(overflowed := true)
    else Flushed(s.(responses := s.responses + [resp], pending := 4 + |resp|), accepts)
  }

  function Step(s: Sender, e: Event): Sender {
    if s.closed || s.overflowed then s
    else if e.Fails() then s.(closed := true)
    else Sent(s, e.resp, e.accepts)
  }

  function Steps(s: Sender, events: seq<Event>): Sender {
    if events == [] then s
    else
      var last := |events| - 1;
      Step(Steps(s, events[..last]), events[last])
  }

  // Every write takes a whole response, so none is ever partial.
  predicate AllTaken(events: seq<Event>) {
    forall i :: 0 <= i < |events| ==> events[i].accepts >= 4 + |events[i].resp|
  }

  lemma AllTakenSnoc(events: seq<Event>, n: nat)
    requires n < |events|
    ensures AllTaken(events[..n + 1]) ==> AllTaken(events[..n]) && events[n].accepts >= 4 + |events[n].resp|
  {
    if AllTaken(events[..n + 1]) {
      assert forall i :: 0 <= i <= n ==> events[..n + 1][i] == events[i];
    }
  }

  /** One event, in full. A failed receive closes. Otherwise an unfinished response is continued; with none, the new
      one is started when it fits the length of the one before it, or 1024 bytes, together with its 4 bytes of length,
      and overflows when it does not. The channel takes what it accepts. */
  lemma StepMeans(s: Sender, e: Event)
    requires !s.closed && !s.overflowed
    ensures var t, n := Step(s, e), |s.responses|;
            var limit := if n == 0 then 1024 else 4 + |s.responses[n - 1]|;
            var total := if s.pending > 0 then s.pending else 4 + |e.resp|;
            if e.Readable? && !e.recvOk then t == s.(closed := true)
            else if s.pending == 0 && total > limit then t == s.(overflowed := true)
            else
              && t.responses == (if s.pending > 0 then s.responses else s.responses + [e.resp])
              && t.pending == (if e.accepts < total then total - e.accepts else 0)
              && !t.closed && !t.overflowed
  {
  }

  // The responses of the events that find can_send, but for one that overflows.
  function Taken(s: Sender, events: seq<Event>): seq<seq<byte>> {
    if events == [] then []
    else
      var last := |events| - 1;
      var before := Steps(s, events[..last]);
      Taken(s, events[..last])
      + (if Takes(before, events[last]) && !Step(before, events[last]).overflowed then [events[last].resp] else [])
  }

  lemma {:induction false} RunSendsTaken(s: Sender, events: seq<Event>)
    ensures Steps(s, events).responses == s.responses + Taken(s, events)
  {
    if events != [] {
      RunSendsTaken(s, events[..|events| - 1]);
    }
  }

  // ---------- when a run overflows ----------

  // No response is longer than the one before it, and the first one fits the limit.
  predicate NonGrowing(limit: nat, resps: seq<seq<byte>>) {
    forall i :: 0 <= i < |resps| ==> 4 + |resps[i]| <= Limit(limit, resps[..i])
  }

  // The responses that can come to be composed: not that of an event that still has to flush.
  function Composing(s: Sender, events: seq<Event>): seq<seq<byte>> {
    if events == [] then []
    else
      var last := |events| - 1;
      Composing(s, events[..last]) + (if last == 0 && s.pending > 0 then [] else [events[last].resp])
  }

  lemma NonGrowingSnoc(limit: nat, resps: seq<seq<byte>>, resp: seq<byte>)
    ensures NonGrowing(limit, resps + [resp]) <==> NonGrowing(limit, resps) && 4 + |resp| <= Limit(limit, resps)
  {
    var all := resps + [resp];
    assert forall i :: 0 <= i <= |resps| ==> all[..i] == resps[..i];
    if NonGrowing(limit, all) {
      assert all[|resps|] == resp && resps[..|resps|] == resps;
      assert forall i :: 0 <= i < |resps| ==> all[i] == resps[i];
    }
  }

  predicate NoneFails(events: seq<Event>) { forall i :: 0 <= i < |events| ==> !events[i].Fails() }

  lemma StepLimit(s: Sender, e: Event)
    ensures LimitOf(Step(s, e)) == if Takes(s, e) && !Step(s, e).overflowed then 4 + |e.resp| else LimitOf(s)
  {
  }

  lemma {:induction false} NonGrowingRuns(s: Sender, events: seq<Event>)
    requires !s.closed && !s.overflowed && NoneFails(events)
    requires NonGrowing(LimitOf(s), Composing(s, events))
    ensures var t := Steps(s, events);
            && !t.closed && !t.overflowed
            && LimitOf(t) >= Limit(LimitOf(s), Composing(s, events))
  {
    if events != [] {
      var last := |events| - 1;
      NonGrowingSnoc(LimitOf(s), Composing(s, events[..last]), events[last].resp);
      NonGrowingRuns(s, events[..last]);
      StepLimit(Steps(s, events[..last]), events[last]);
    }
  }

  // Every write takes all that is left.
  predicate Whole(s: Sender, events: seq<Event>) {
    forall i :: 0 <= i < |events| ==> events[i].accepts >= s.pending + 4 + |events[i].resp|
  }

  // Without an overflow, whole writes compose every response that can be.
  ghost predicate Grown(s: Sender, t: Sender, composed: seq<seq<byte>>) {
    && !t.closed && !t.overflowed
    && NonGrowing(LimitOf(s), composed) && LimitOf(t) == Limit(LimitOf(s), composed)
  }

  lemma WholeStep(s: Sender, t: Sender, composed: seq<seq<byte>>, e: Event)
    requires Grown(s, t, composed) && !e.Fails() && !Step(t, e).overflowed
    requires e.accepts >= t.pending && e.accepts >= 4 + |e.resp|
    ensures Step(t, e).pending == 0
    ensures Grown(s, Step(t, e), if t.pending > 0 then composed else composed + [e.resp])
  {
    NonGrowingSnoc(LimitOf(s), composed, e.resp);
    StepLimit(t, e);
  }

  lemma {:induction false} WholeWritesGrow(s: Sender, events: seq<Event>)
    requires !s.closed && !s.overflowed && NoneFails(events) && Whole(s, events)
    requires !Steps(s, events).overflowed
    ensures Grown(s, Steps(s, events), Composing(s, events))
    ensures Steps(s, events).pending == (if events == [] then s.pending else 0)
  {
    if events != [] {
      var last := |events| - 1;
      WholeWritesGrow(s, events[..last]);
      WholeStep(s, Steps(s, events[..last]), Composing(s, events[..last]), events[last]);
    }
  }

  function WithAccepts(events: seq<Event>, accepts: seq<nat>): (r: seq<Event>)
    requires |accepts| == |events|
    ensures |r| == |events| && forall i :: 0 <= i < |r| ==> r[i] == events[i].(accepts := accepts[i])
  {
    seq(|events|, i requires 0 <= i < |events| => events[i].(accepts := accepts[i]))
  }

  lemma {:induction false} ComposingIgnoresAccepts(s: Sender, a: seq<Event>, b: seq<Event>)
    requires |a| == |b| && forall i :: 0 <= i < |a| ==> a[i].resp == b[i].resp
    ensures Composing(s, a) == Composing(s, b)
  {
    if a != [] {
      ComposingIgnoresAccepts(s, a[..|a| - 1], b[..|b| - 1]);
    }
  }

  /** Exactly when every response fits the one before it can no partial writes lead to an overflow. */
  lemma {:induction false} NeverOverflowsExactlyWhen(s: Sender, events: seq<Event>)
    requires !s.closed && !s.overflowed && NoneFails(events)
    ensures (forall accepts: seq<nat> :: |accepts| == |events| ==> !Steps(s, WithAccepts(events, accepts)).overflowed)
            <==> NonGrowing(LimitOf(s), Composing(s, events))
  {
    forall accepts: seq<nat> | |accepts| == |events| && NonGrowing(LimitOf(s), Composing(s, events))
      ensures !Steps(s, WithAccepts(events, accepts)).overflowed
    {
      ComposingIgnoresAccepts(s, events, WithAccepts(events, accepts));
      NonGrowingRuns(s, WithAccepts(events, accepts));
    }
    var whole: seq<nat> := seq(|events|, i requires 0 <= i < |events| => s.pending + 4 + |events[i].resp|);
    var run := WithAccepts(events, whole);
    ComposingIgnoresAccepts(s, events, run);
    if !Steps(s, run).overflowed {
      WholeWritesGrow(s, run);
    }
  }

  /** The shortest run that overflows: an empty response, sent whole, and then one of one byte. */
  lemma LongerResponseOverflows()
    ensures Steps(Sender([], 0, false, false), [Writable([], 4), Writable([0], 5)]).overflowed
  {
    var start, first, second := Sender([], 0, false, false), Writable([], 4), Writable([0], 5);
    assert [first, second][..1] == [first] && [first][..0] == [];
    assert Steps(start, [first]) == Step(start, first);
  }

  // ---------- what the peer can read ----------

  // The whole messages at the front of what a peer received.
  function Messages(s: seq<byte>): seq<seq<byte>> {
    if |s| < 4 || |s| - 4 < FromBigEndian32(s[..4]) then []
    else
      var end := 4 + FromBigEndian32(s[..4]);
      [s[4..end]] + Messages(s[end..])
  }

  /** A peer that has everything reads exactly the responses. */
  lemma {:induction false} PeerReadsResponses(resps: seq<seq<byte>>)
    requires AllSendable(resps)
    ensures Messages(Flatten(Framed(resps))) == resps
  {
    if resps != [] {
      var rest := resps[1..];
      PeerReadsResponses(rest);
      assert Framed(resps)[1..] == Framed(rest);
      FirstMessage(resps[0], Flatten(Framed(rest)));
    }
  }

  lemma FirstMessage(resp: seq<byte>, rest: seq<byte>)
    requires Sendable(resp)
    ensures Messages(Frame(resp) + rest) == [resp] + Messages(rest)
  {
    var s, n := Frame(resp) + rest, |resp|;
    assert s == BigEndian32(n) + (resp + rest);
    assert s[..4] == BigEndian32(n);
    BigEndianRoundTrip(n);
    assert s[4..4 + n] == resp && s[4 + n..] == rest;
  }

  /** A peer that has only part of it reads the first responses, whole. */
  lemma {:induction false} PeerReadsPrefix(received: seq<byte>, unsent: seq<byte>)
    ensures Messages(received) <= Messages(received + unsent)
  {
    if |received| >= 4 {
      MessageStays(received, unsent);
      var end := 4 + FromBigEndian32(received[..4]);
      if |received| >= end {
        PeerReadsPrefix(received[end..], unsent);
      }
    }
  }

  // The first message of what was received is that of the whole stream.
  lemma MessageStays(received: seq<byte>, unsent: seq<byte>)
    requires |received| >= 4
    ensures var all, end := received + unsent, 4 + FromBigEndian32(received[..4]);
            && all[..4] == received[..4]
            && (|received| >= end ==> all[4..end] == received[4..end] && all[end..] == received[end..] + unsent)
  {
  }

  /** What a peer reads while some of the stream is unsent. */
  lemma PeerReadsWritten(resps: seq<seq<byte>>, written: seq<byte>, unsent: seq<byte>)
    requires AllSendable(resps) && written + unsent == Flatten(Framed(resps))
    ensures Messages(written) <= resps
    ensures unsent == [] ==> Messages(written) == resps
  {
    PeerReadsPrefix(written, unsent);
    PeerReadsResponses(resps);
    assert unsent == [] ==> written + unsent == written;
  }

  // ---------- the sender ----------

  class Client {
    const sendBuff: array<byte>
    var position: nat
    var limit: nat
    var canSend: bool
    var interest: Ops
    var closed: bool
    var overflowed: bool
    var written: seq<byte>                 // everything the channel accepted
    ghost var responses: seq<seq<byte>>    // everything composed

    // The part of the last response the channel has not accepted.
    ghost function Unsent(): seq<byte>
      requires position <= limit <= sendBuff.Length
      reads this, sendBuff
    {
      if canSend then [] else sendBuff[position..limit]
    }

    /** The channel has the responses, framed, in order, minus exactly the unsent remainder of the buffer. */
    ghost predicate Valid()
      reads this, sendBuff
    {
      && sendBuff.Length == SEND_BUFF_LEN && position <= limit <= SEND_BUFF_LEN
      && (canSend && !overflowed ==> position == 0)
      && (!canSend ==> position < limit)
      && limit == Limit(SEND_BUFF_LEN, responses)
      && AllSendable(responses)
      && written + Unsent() == Flatten(Framed(responses))
    }

    // Between two steps of the event loop an unfinished response waits for writability.
    ghost predicate Waits()
      reads this
    {
      !canSend && !closed ==> interest.write
    }

    ghost function Value(): Sender
      reads this
    {
      Sender(responses, if canSend || limit < position then 0 else limit - position, closed, overflowed)
    }

    constructor ()
      ensures Valid() && Waits() && Value() == Sender([], 0, false, false)
      ensures canSend && limit == 1024 && written == [] && interest == Ops(true, false)
    {
      sendBuff := new byte[SEND_BUFF_LEN];
      position, limit, canSend := 0, SEND_BUFF_LEN, true;
      interest := Ops(true, false);
      closed, overflowed, written, responses := false, false, [], [];
    }

    method Register(ops: Ops)
      modifies this`interest
      ensures interest == Ops(old(interest).read || ops.read, old(interest).write || ops.write)
    {
      interest := Ops(interest.read || ops.read, interest.write || ops.write);
    }

    method CancelEvent(ops: Ops)
      modifies this`interest
      ensures interest == Ops(old(interest).read && !ops.read, old(interest).write && !ops.write)
    {
      interest := Ops(interest.read && !ops.read, interest.write && !ops.write);
    }

    // ByteBuffer.put, within the limit.
    method Put(bytes: seq<byte>)
      requires position + |bytes| <= limit <= sendBuff.Length
      modifies this`position, sendBuff
      ensures position == old(position) + |bytes|
      ensures sendBuff[..position] == old(sendBuff[..position]) + bytes
    {
      forall i | 0 <= i < |bytes| {
        sendBuff[position + i] := bytes[i];
      }
      position := position + |bytes|;
    }

    // SocketChannel.write: the channel takes what it accepts of the remaining bytes.
    method Write(accepts: nat) returns (n: nat)
      requires position <= limit <= sendBuff.Length
      modifies this`position, this`written
      ensures n == (if accepts < limit - old(position) then accepts else limit - old(position))
      ensures position == old(position) + n && written == old(written) + sendBuff[old(position)..position]
    {
      n := if accepts < limit - position then accepts else limit - position;
      written := written + sendBuff[position..position + n];
      position := position + n;
    }

    /** A new response is started only when the previous one is out, and the interest set keeps waiting for
        writability until it is. */
    method SendData(resp: seq<byte>, accepts: nat)
      requires Valid() && !closed && !overflowed && Sendable(resp)
      modifies this, sendBuff
      ensures Valid() && old(written) <= written
      ensures Value() == Sent(old(Value()), resp, accepts)
      ensures overflowed <==> old(canSend) && 4 + |resp| > old(limit)
      ensures overflowed ==> interest == old(interest) && written == old(written)
      ensures !overflowed ==>
                var total := if old(canSend) then 4 + |resp| else old(limit) - old(position);
                && (canSend <==> accepts >= total)
                && interest == Ops(old(interest.read), old(interest.write) || !canSend)
    {
      var total;
      if canSend {
        Compose(resp);
        if overflowed {
          return;
        }
        total := |resp| + 4;
      } else {
        total := limit - position;
      }
      Flush(total, accepts);
    }

    // The buffer holds unsent bytes of the last response and the channel everything before them.
    ghost predicate Flushing()
      reads this, sendBuff
    {
      && sendBuff.Length == SEND_BUFF_LEN && position < limit <= SEND_BUFF_LEN
      && limit == Limit(SEND_BUFF_LEN, responses) && AllSendable(responses)
      && written + sendBuff[position..limit] == Flatten(Framed(responses))
    }

    // A new response becomes the readable part of the buffer, unless a put runs past the limit.
    method Compose(resp: seq<byte>)
      requires Valid() && canSend && !overflowed && Sendable(resp)
      modifies this`position, this`limit, this`overflowed, this`responses, sendBuff
      ensures overflowed <==> 4 + |resp| > old(limit)
      ensures overflowed ==> Valid() && responses == old(responses)
      ensures !overflowed ==> Flushing() && position == 0 && responses == old(responses) + [resp]
    {
      Fill(resp);
      if !overflowed {
        FramedSnoc(responses, resp);
        responses := responses + [resp];
        assert written + [] == written;
      }
    }

    // putInt, put and flip.
    method Fill(resp: seq<byte>)
      requires position == 0 && limit <= sendBuff.Length && !overflowed && Sendable(resp)
      modifies this`position, this`limit, this`overflowed, sendBuff
      ensures overflowed <==> 4 + |resp| > old(limit)
      ensures overflowed ==> limit == old(limit) && position <= limit
      ensures !overflowed ==> position == 0 && limit == 4 + |resp| && sendBuff[position..limit] == Frame(resp)
    {
      if limit < 4 {
        overflowed := true;
        return;
      }
      Put(BigEndian32(|resp|));
      if limit - position < |resp| {
        overflowed := true;
        return;
      }
      Put(resp);
      assert sendBuff[..position] == Frame(resp);
      limit := position;
      position := 0;
    }

    // The write, and what it leaves to do.
    method Flush(total: nat, accepts: nat)
      requires Flushing() && total == limit - position && !overflowed
      modifies this`position, this`written, this`canSend, this`interest
      ensures Valid() && old(written) <= written
      ensures Value() == Flushed(Sender(responses, total, closed, overflowed), accepts)
      ensures canSend <==> accepts >= total
      ensures interest == Ops(old(interest.read), old(interest.write) || !canSend)
    {
      ghost var before, remaining := written, sendBuff[position..limit];
      var sent := Write(accepts);
      assert sendBuff[position..limit] == remaining[sent..];
      Rejoin(before, remaining, sent);
      if sent < total {
        Register(Ops(false, true));
        canSend := false;
      } else {
        if !canSend {
          canSend := true;
        }
        position := 0;
      }
    }

    method Close()
      modifies this`interest, this`closed
      ensures closed && interest == Ops(false, false)
    {
      CancelEvent(Ops(true, true));
      closed := true;
    }

    /** One event of the selector loop; a readable key is not looked at for writability. A failed receive closes and
        waits for nothing more. A readable key begins to wait for writability when the write is partial; a writable
        one goes on waiting only then. */
    method Handle(e: Event)
      requires Valid() && Waits() && !closed && !overflowed && Sendable(e.resp)
      modifies this, sendBuff
      ensures Valid() && (!overflowed ==> Waits()) && old(written) <= written
      ensures Value() == Step(old(Value()), e)
      ensures closed <==> e.Readable? && !e.recvOk
      ensures closed ==> interest == Ops(false, false) && written == old(written) && !overflowed
      ensures e.Readable? && !closed && !overflowed ==>
                interest == Ops(old(interest.read), old(interest.write) || !canSend)
      ensures e.Writable? && !overflowed ==> interest == Ops(old(interest.read), !canSend)
      ensures overflowed ==> interest == Ops(old(interest.read), old(interest.write) && e.Readable?)
      ensures old(canSend) && !overflowed && !closed ==> (canSend <==> e.accepts >= 4 + |e.resp|)
      ensures old(canSend) && (overflowed || closed) ==> canSend
    {
      match e
      case Readable(recvOk, resp, accepts) => Receive(recvOk, resp, accepts);
      case Writable(resp, accepts) => Continue(resp, accepts);
    }

    // The branch of a readable key.
    method Receive(recvOk: bool, resp: seq<byte>, accepts: nat)
      requires Valid() && Waits() && !closed && !overflowed && Sendable(resp)
      modifies this, sendBuff
      ensures Valid() && (!overflowed ==> Waits()) && old(written) <= written
      ensures Value() == if recvOk then Sent(old(Value()), resp, accepts) else old(Value()).(closed := true)
      ensures overflowed <==> recvOk && old(canSend) && 4 + |resp| > old(limit)
      ensures !recvOk ==> interest == Ops(false, false) && written == old(written) && canSend == old(canSend)
      ensures recvOk ==> interest == Ops(old(interest.read), old(interest.write) || (!overflowed && !canSend))
      ensures recvOk && old(canSend) && !overflowed ==> (canSend <==> accepts >= 4 + |resp|)
    {
      if !recvOk {
        Close();
      } else {
        SendData(resp, accepts);
      }
    }

    // The branch of a writable key.
    method Continue(resp: seq<byte>, accepts: nat)
      requires Valid() && !closed && !overflowed && Sendable(resp)
      modifies this, sendBuff
      ensures Valid() && old(written) <= written && Value() == Sent(old(Value()), resp, accepts)
      ensures overflowed <==> old(canSend) && 4 + |resp| > old(limit)
      ensures interest == Ops(old(interest.read), !overflowed && !canSend)
      ensures old(canSend) && !overflowed ==> (canSend <==> accepts >= 4 + |resp|)
    {
      CancelEvent(Ops(false, true));
      SendData(resp, accepts);
    }

    // What the key waits for behind the first n events; ready: it waited for no write and none was due.
    ghost predicate Settled(events: seq<Event>, n: nat, ready: bool)
      reads this
    {
      && n <= |events|
      && (n > 0 && events[n - 1].Writable? && !overflowed ==> (interest.write <==> !canSend))
      && (ready && AllTaken(events[..n]) ==> canSend && !interest.write)
    }

    method HandleNext(ghost start: Sender, events: seq<Event>, n: nat, ghost ready: bool)
      requires n < |events| && Valid() && Waits() && !closed && !overflowed && Sendable(events[n].resp)
      requires Value() == Steps(start, events[..n]) && Settled(events, n, ready)
      modifies this, sendBuff
      ensures Valid() && (!overflowed ==> Waits()) && old(written) <= written
      ensures Value() == Steps(start, events[..n + 1]) && Settled(events, n + 1, ready)
    {
      AllTakenSnoc(events, n);
      StepsSnoc(start, events, n);
      Handle(events[n]);
    }

    /** The event loop on one connection, for any events and any partial writes. The responses composed are, in
        order, those of the events that found can_send; of them the peer reads a beginning, and all of them
        whenever can_send is set. n events are handled, all of them unless the connection closes or overflows. Behind
        a writable one the key waits for writability exactly while a response is unfinished, and as long as every write
        takes its whole response it never does. */
    method Process(events: seq<Event>) returns (n: nat)
      requires Valid() && Waits() && !closed && !overflowed
      requires forall i :: 0 <= i < |events| ==> Sendable(events[i].resp)
      modifies this, sendBuff
      ensures Valid() && (!overflowed ==> Waits()) && old(written) <= written
      ensures Value() == Steps(old(Value()), events)
      ensures responses == old(responses) + Taken(old(Value()), events)
      ensures Messages(written) <= responses && (canSend ==> Messages(written) == responses)
      ensures n <= |events| && (n < |events| ==> closed || overflowed)
      ensures n > 0 && events[n - 1].Writable? && !overflowed ==> (interest.write <==> !canSend)
      ensures old(canSend) && !old(interest.write) && AllTaken(events[..n]) ==> canSend && !interest.write
    {
      ghost var start := Value();
      ghost var ready := canSend && !interest.write;
      n := 0;
      while n < |events| && !closed && !overflowed
        invariant n <= |events| && Valid() && (!overflowed ==> Waits()) && old(written) <= written
        invariant Value() == Steps(start, events[..n])
        invariant Settled(events, n, ready)
      {
        HandleNext(start, events, n, ready);
        n := n + 1;
      }
      StepsStop(start, events, n);
      RunSendsTaken(start, events);
      PeerReadsWritten(responses, written, Unsent());
    }
  }

  lemma StepsSnoc(s: Sender, events: seq<Event>, i: nat)
    requires i < |events|
    ensures Steps(s, events[..i + 1]) == Step(Steps(s, events[..i]), events[i])
  {
    assert events[..i + 1][..i] == events[..i];
  }

  // Once the loop has ended the events left change nothing.
  lemma {:induction false} StepsStop(s: Sender, events: seq<Event>, i: nat)
    requires i <= |events|
    requires i == |events| || Steps(s, events[..i]).closed || Steps(s, events[..i]).overflowed
    ensures Steps(s, events) == Steps(s, events[..i])
    decreases |events|
  {
    if i == |events| {
      assert events[..i] == events;
    } else {
      var last := |events| - 1;
      assert events[..last][..i] == events[..i];
      StepsStop(s, events[..last], i);
    }
  }

  lemma Rejoin(a: seq<byte>, b: seq<byte>, n: nat)
    requires n <= |b|
    ensures (a + b[..n]) + b[n..] == a + b && (n == |b| ==> (a + b[..n]) + [] == a + b)
  {
  }

  lemma FramedSnoc(resps: seq<seq<byte>>, resp: seq<byte>)
    requires AllSendable(resps) && Sendable(resp)
    ensures AllSendable(resps + [resp])
    ensures Flatten(Framed(resps + [resp])) == Flatten(Framed(resps)) + Frame(resp)
  {
    assert Framed(resps + [resp]) == Framed(resps) + [Frame(resp)];
    FlattenSnoc(Framed(resps), Frame(resp));
  }
}
