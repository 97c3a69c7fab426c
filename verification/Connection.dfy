/** The connection object of 04-30_nwchecker_refactor/nwc_connection.c: its receive buffer,
    compacted in place, in front of the quality-of-service protocol, and its paced sender. */
module Connection {
  import opened Sequences
  import opened Words
  import opened Framing
  import opened Pacing
  import opened Receiving
  import Qos

  // What recv returned: a byte count with the bytes, or 0 or a negative error code.
  datatype Received = Failed(rc: int) | Bytes(data: seq<byte>)

  // A call that began in state s has handled these packages and goes on from state t.
  ghost predicate Reached(mode: Mode, done: seq<seq<byte>>, clock: nat -> uint32, sends: nat -> int,
                          s: State, t: State) {
    AfterItems(mode, Items(done, clock, sends), s) == (t, Drained)
  }

  // One more package of a call, and what follows it.
  lemma HandledSteps(mode: Mode, done: seq<seq<byte>>, x: Item, more: seq<seq<byte>>, clock: nat -> uint32,
                     sends: nat -> int, s: State, t: State)
    requires Reached(mode, done, clock, sends, s, t)
    requires x == Item(x.package, clock(0), clock(|done| + 1), sends(|done|))
    ensures var (u, end), all := AfterItem(mode, x, t), done + [x.package];
            && AfterItems(mode, Items(all, clock, sends), s) == (u, end)
            && (end != Drained ==> AfterItems(mode, Items(all + more, clock, sends), s) == (u, end))
  {
    ItemsSnoc(done, x.package, clock, sends);
    AfterSnoc(mode, Items(done, clock, sends), x, s);
    var rest := ItemsPrefix(done + [x.package], more, clock, sends);
    ItemsCompose(mode, Items(done + [x.package], clock, sends), rest, s);
  }

  class Conn {
    const mode: Mode
    const qos: Qos.QosProtocol
    const recvBuff: array<byte>
    const sendBandwidth: uint32
    var rbytes: nat
    var canSend: bool
    var closed: bool
    var wire: seq<Qos.Header>  // the replies this connection sent

    ghost predicate Valid()
      reads this
    {
      recvBuff.Length == RECV_BUFFER_LEN && rbytes <= RECV_BUFFER_LEN && sendBandwidth + PACKAGE_LEN < TWO32
    }

    ghost function Unparsed(): seq<byte>
      requires Valid()
      reads this, recvBuff
    {
      recvBuff[..rbytes]
    }

    ghost function Value(): State
      reads this, qos
    {
      State(qos.Value(), wire, canSend)
    }

    // bandwidth is the configured one, a signed int in bits per second; only a client uses it.
    constructor (mode: Mode, qos: Qos.QosProtocol, bandwidth: int)
      requires -0x8000_0000 <= bandwidth < 0x8000_0000
      ensures Valid() && canSend && !closed && Unparsed() == [] && wire == []
      ensures this.mode == mode && this.qos == qos && fresh(recvBuff) && recvBuff.Length == 4096
      ensures sendBandwidth == if mode.Client? then Slice(bandwidth) else 0
    {
      SliceIsLeastSufficient(bandwidth);
      this.mode, this.qos := mode, qos;
      recvBuff := new byte[RECV_BUFFER_LEN];
      sendBandwidth := if mode.Client? then Slice(bandwidth) else 0;
      rbytes, canSend, closed, wire := 0, true, false, [];
    }

    /** Everything received so far but not parsed, followed by the new bytes, is parsed to the end: the packages
        go to the protocol (client) or are answered in order (server), the i-th reply with what sends(i) returns,
        and the front of the buffer is exactly the rest. A server that cannot send gets nowhere: the call that is
        Spinning here never returns, because nothing in the loop changes can_send any more. A failed recv closes,
        but for -EAGAIN, -11. */
    method OnRecv(received: Received, clock: nat -> uint32, sends: nat -> int) returns (outcome: Outcome)
      requires Valid() && !closed
      requires received.Bytes? ==> 0 < |received.data| <= RECV_BUFFER_LEN - rbytes
      requires received.Failed? ==> received.rc <= 0
      modifies this`rbytes, this`closed, this`canSend, this`wire, recvBuff, qos
      ensures Valid()
      ensures closed <==> (received.Failed? && received.rc != -11) || outcome == SendFailed
      ensures received.Failed? ==> outcome == Drained && Unparsed() == old(Unparsed()) && Value() == old(Value())
      ensures received.Bytes? ==>
                var stream := old(Unparsed()) + received.data;
                && (Value(), outcome) == AfterCall(mode, stream, clock, sends, old(Value()))
                && (outcome == Drained ==> Unparsed() == Rest(stream))
    {
      if received.Failed? {
        if received.rc != -EAGAIN {
          closed := true;
        }
        return Drained;
      }
      var total := rbytes + |received.data|;
      Fill(received.data);
      ghost var stream := recvBuff[..total];
      assert stream == old(Unparsed()) + received.data;
      var ptr;
      outcome, ptr := Parse(stream, total, clock, sends);
      if outcome == SendFailed {
        closed := true;
      } else if outcome == Drained {
        Compact(ptr, total - ptr);
        rbytes := total - ptr;
      }
    }

    // recv stores what it received behind the unparsed bytes.
    method Fill(data: seq<byte>)
      requires Valid() && |data| <= RECV_BUFFER_LEN - rbytes
      modifies recvBuff
      ensures recvBuff[..rbytes + |data|] == old(recvBuff[..rbytes]) + data
    {
      forall i | 0 <= i < |data| {
        recvBuff[rbytes + i] := data[i];
      }
    }

    // memmove: the regions may overlap.
    method Compact(from: nat, count: nat)
      requires recvBuff.Length == RECV_BUFFER_LEN && from + count <= RECV_BUFFER_LEN
      modifies recvBuff
      ensures recvBuff[..count] == old(recvBuff[from..from + count])
    {
      forall i | 0 <= i < count {
        recvBuff[i] := recvBuff[from + i];
      }
    }

    // The loop of OnRecv; ptr is where the unparsed bytes start.
    method Parse(ghost stream: seq<byte>, total: nat, clock: nat -> uint32, sends: nat -> int)
        returns (outcome: Outcome, ptr: nat)
      requires recvBuff.Length == RECV_BUFFER_LEN && total <= RECV_BUFFER_LEN && stream == recvBuff[..total]
      modifies this`wire, this`canSend, qos
      ensures (Value(), outcome) == AfterCall(mode, stream, clock, sends, old(Value()))
      ensures outcome == Drained ==> ptr <= total && recvBuff[ptr..total] == Rest(stream)
    {
      ghost var before := Value();
      ptr := 0;
      var rbytes, parsed := total, 0;
      ghost var done: seq<seq<byte>> := [];
      assert stream[0..] == stream;
      while true
        invariant ParsedTo(stream, done, ptr) && rbytes == total - ptr && parsed == |done|
        invariant Reached(mode, done, clock, sends, before, Value())
        decreases rbytes
      {
        if rbytes < HEADER_LEN {
          ParseStops(stream, done, ptr);
          break;
        }
        var header, size := Peek(stream, total, ptr);
        if rbytes < size {
          ParseStops(stream, done, ptr);
          break;
        }
        outcome, done := HandleNext(stream, header, ptr, size, done, parsed, clock, sends, before);
        if outcome != Drained {
          return;
        }
        ptr, rbytes, parsed := ptr + size, rbytes - size, parsed + 1;
      }
      outcome := Drained;
    }

    // The header at ptr, and the size of the package it announces, as the program computes it.
    method Peek(ghost stream: seq<byte>, total: nat, ptr: nat) returns (header: seq<byte>, size: uint32)
      requires recvBuff.Length == RECV_BUFFER_LEN && ptr + HEADER_LEN <= total <= RECV_BUFFER_LEN
      requires stream == recvBuff[..total]
      ensures |header| == HEADER_LEN && header <= stream[ptr..] && header == stream[ptr..ptr + HEADER_LEN]
      ensures size == Add32(HEADER_LEN, Length(stream[ptr..]))
    {
      header := recvBuff[ptr..ptr + HEADER_LEN];
      assert stream[ptr..][..HEADER_LEN] == header;
      size := Add32(HEADER_LEN, Word(header, 12));
    }

    // The package behind those that were parsed, or a header that wraps.
    method HandleNext(ghost stream: seq<byte>, header: seq<byte>, ghost ptr: nat, size: nat,
                      ghost done: seq<seq<byte>>, parsed: nat, clock: nat -> uint32, sends: nat -> int,
                      ghost before: State) returns (outcome: Outcome, ghost all: seq<seq<byte>>)
      requires ParsedTo(stream, done, ptr) && |stream| <= RECV_BUFFER_LEN && ptr + HEADER_LEN <= |stream|
      requires header == stream[ptr..ptr + HEADER_LEN] && parsed == |done|
      requires size == Add32(HEADER_LEN, Length(stream[ptr..])) && size <= |stream| - ptr
      requires Reached(mode, done, clock, sends, before, Value())
      modifies this`wire, this`canSend, qos
      ensures outcome == Drained ==>
                && ParsedTo(stream, all, ptr + size) && |all| == |done| + 1 && size >= HEADER_LEN
                && Reached(mode, all, clock, sends, before, Value())
      ensures outcome != Drained ==>
                (Value(), outcome) == AfterCall(mode, stream, clock, sends, before)
    {
      ghost var p, more := NextPackage(stream, done, ptr, size);
      all := done + [p];
      ghost var x := Item(p, clock(0), clock(parsed + 1), sends(parsed));
      HandledSteps(mode, done, x, more, clock, sends, before, Value());
      outcome := Handle(header, x, clock(0), clock(parsed + 1), sends(parsed));
      if outcome == Drained && size < HEADER_LEN {
        assert all + more == all;
        outcome := Astray;
      }
    }

    /** One package: the client's protocol matches it; the server answers it with the first word of the package, its
        stamp, unless it cannot send. -11 is -EAGAIN. */
    method Handle(header: seq<byte>, ghost x: Item, recvTs: uint32, now: uint32, rc: int) returns (outcome: Outcome)
      requires |header| == HEADER_LEN && header <= x.package && x == Item(x.package, recvTs, now, rc)
      modifies this`wire, this`canSend, qos
      ensures (Value(), outcome) == AfterItem(mode, x, old(Value()))
      ensures mode.Client? ==>
                && qos.Value() == Qos.AfterAck(old(qos.Value()), HeaderOf(header), recvTs)
                && wire == old(wire) && canSend == old(canSend) && outcome == Drained
      ensures mode.Server? ==>
                && qos.Value() == old(qos.Value())
                && wire == (if old(canSend) && rc > 0
                            then old(wire) + [Qos.Header(now, Word(header, 0), (now - recvTs) % 0x1_0000_0000, 4)]
                            else old(wire))
                && canSend == (old(canSend) && rc != -11)
                && outcome == (if !old(canSend) then Spinning
                               else if rc > 0 || rc == -11 then Drained else SendFailed)
    {
      assert HeaderOf(header) == HeaderOf(x.package);
      outcome := Drained;
      if mode == Server {
        if !canSend {
          return Spinning;
        }
        if rc > 0 {
          wire := wire + [ReplyTo(Item(header, recvTs, now, rc))];
        } else if rc == -EAGAIN {
          canSend := false;
        } else {
          outcome := SendFailed;
        }
      } else {
        qos.ProcessPackage(HeaderOf(header), recvTs);
      }
    }

    /** One tick. The i-th send of the tick returns answer(i), the i-th clock reading is clock(i).
        The sends stop as soon as the slice is covered or one fails; every attempt, failed or not,
        leaves its package on the sent queue. */
    method OnSend(answer: nat -> int, clock: nat -> uint32) returns (rc: int, n: nat)
      requires Valid() && !closed
      requires forall i: nat :: answer(i) <= PACKAGE_LEN
      modifies this`canSend, this`closed, qos
      ensures !old(canSend) || mode.Server? ==> n == 0
      ensures Uncovered(answer, sendBandwidth, n)
      ensures old(canSend) && mode.Client? && (n == 0 || answer(n - 1) > 0) ==>
                sendBandwidth <= Total(answer, n) <= sendBandwidth + 1315
      ensures rc == if n == 0 then 0 else answer(n - 1)
      ensures closed <==> n > 0 && rc <= 0 && rc != -11
      ensures Valid()
      ensures canSend == (old(canSend) && !(n > 0 && rc == -11))
      ensures qos.Value() == AfterSends(old(qos.Value()), old(qos.nextId), clock, n)
      ensures qos.nextId == old(qos.nextId) + n
    {
      rc, n := 0, 0;
      if !canSend {
        return;
      }
      if mode == Client {
        var current: uint32 := 0;
        while current < sendBandwidth
          invariant current == Total(answer, n) && current <= sendBandwidth + PACKAGE_LEN - 1
          invariant Uncovered(answer, sendBandwidth, n)
          invariant rc == (if n == 0 then 0 else answer(n - 1)) && (n > 0 ==> rc > 0)
          invariant qos.Value() == AfterSends(old(qos.Value()), old(qos.nextId), clock, n)
          invariant qos.nextId == old(qos.nextId) + n
          invariant canSend == old(canSend) && closed == old(closed)
          decreases sendBandwidth - current
        {
          UncoveredStep(answer, sendBandwidth, n);
          EnqueueStamped(clock(n));
          rc := answer(n);
          n := n + 1;
          if rc <= 0 {
            if rc != -EAGAIN {
              closed := true;
            } else {
              canSend := false;
            }
            break;
          }
          current := Add32(current, rc);
        }
      }
    }

    // Create the package, then stamp it through the pointer that the queue shares.
    method EnqueueStamped(now: uint32)
      modifies qos
      ensures qos.Value() == Qos.AfterCreate(old(qos.Value()), Qos.Entry(old(qos.nextId), now), Qos.PAYLOAD)
      ensures qos.nextId == old(qos.nextId) + 1
    {
      ghost var queue := qos.sentQueue;
      var junk: uint32 := *;
      var id := qos.CreatePackage(Qos.PAYLOAD, junk);
      assert (queue + [Qos.Entry(id, junk)])[..|queue|] == queue;
      qos.Stamp(now);
    }
  }

  // ---------- whole runs ----------

  // Each chunk fits the room the ones before it leave in the buffer.
  ghost predicate Fits(chunks: seq<seq<byte>>) {
    forall i :: 0 <= i < |chunks| ==> 0 < |chunks[i]| <= RECV_BUFFER_LEN - |Left(chunks[..i])|
  }

  /** A connection that receives a stream in any chunks the buffer has room for: its calls are those of AfterChunks. */
  method ReceiveChunks(c: Conn, chunks: seq<seq<byte>>, clocks: nat -> nat -> uint32, sends: nat -> nat -> int)
      returns (outcome: Outcome)
    requires c.Valid() && !c.closed && c.Unparsed() == [] && Fits(chunks)
    modifies c`rbytes, c`closed, c`canSend, c`wire, c.recvBuff, c.qos
    ensures (c.Value(), outcome) == AfterChunks(c.mode, chunks, clocks, sends, old(c.Value()))
    ensures c.Valid() && (c.closed <==> outcome == SendFailed)
    ensures outcome == Drained ==> c.Unparsed() == Rest(Flatten(chunks))
  {
    ghost var before := c.Value();
    outcome := Drained;
    var i := 0;
    while i < |chunks|
      invariant i <= |chunks| && c.Valid() && !c.closed && outcome == Drained && c.Unparsed() == Left(chunks[..i])
      invariant (c.Value(), Drained) == AfterChunks(c.mode, chunks[..i], clocks, sends, before)
    {
      assert chunks[..i + 1][..i] == chunks[..i];
      outcome := c.OnRecv(Bytes(chunks[i]), clocks(i), sends(i));
      i := i + 1;
      if outcome != Drained {
        StoppedStays(c.mode, chunks, i, clocks, sends, before);
        return;
      }
    }
    assert chunks[..i] == chunks;
    ChunksDoNotMatter(chunks);
  }

  lemma {:induction false} StoppedStays(mode: Mode, chunks: seq<seq<byte>>, i: nat, clocks: nat -> nat -> uint32,
                                        sends: nat -> nat -> int, s: State)
    requires i <= |chunks| && AfterChunks(mode, chunks[..i], clocks, sends, s).1 != Drained
    ensures AfterChunks(mode, chunks, clocks, sends, s) == AfterChunks(mode, chunks[..i], clocks, sends, s)
    decreases |chunks|
  {
    if i == |chunks| {
      assert chunks[..i] == chunks;
    } else {
      var front := chunks[..|chunks| - 1];
      assert front[..i] == chunks[..i];
      StoppedStays(mode, front, i, clocks, sends, s);
    }
  }
}
