/** What the packages of a byte stream do to a connection of 04-30_nwchecker_refactor/nwc_connection.c, one call of
    nwc_connection_on_recv at a time and over whole streams. */
module Receiving {
  import opened Sequences
  import opened Words
  import opened Framing
  import Qos

  const EAGAIN := 11

  datatype Mode = Client | Server

  function Word(p: seq<byte>, at: nat): uint32
    requires at + 4 <= |p|
  {
    LittleEndian32(p[at], p[at + 1], p[at + 2], p[at + 3])
  }

  // The header of a package; packages are never shorter than a header.
  function HeaderOf(p: seq<byte>): Qos.Header {
    if |p| < HEADER_LEN then Qos.Header(0, 0, 0, 0)
    else Qos.Header(Word(p, 0), Word(p, 4), Word(p, 8), Word(p, 12))
  }

  // A package as the sender lays it out: the four header words, then the payload.
  function Package(h: Qos.Header, payload: seq<byte>): seq<byte> {
    LittleEndianBytes(h.timestamp) + LittleEndianBytes(h.ackTimestamp) + LittleEndianBytes(h.recvDelay)
    + LittleEndianBytes(h.length) + payload
  }

  /** The header is read back as it was laid out: four words, in this order, before the payload. */
  lemma HeaderRoundTrip(h: Qos.Header, payload: seq<byte>)
    requires |payload| == h.length
    ensures IsPackage(Package(h, payload)) && HeaderOf(Package(h, payload)) == h
    ensures var p := Package(h, payload);
            && |p| == 16 + |payload| && p[16..] == payload
            && Spells(p[0..4], h.timestamp) && Spells(p[4..8], h.ackTimestamp)
            && Spells(p[8..12], h.recvDelay) && Spells(p[12..16], h.length)
  {
    var p := Package(h, payload);
    HeaderLayout(h, payload);
    BigEndianRoundTrip(h.timestamp);
    BigEndianRoundTrip(h.ackTimestamp);
    BigEndianRoundTrip(h.recvDelay);
    BigEndianRoundTrip(h.length);
    assert Word(p, 0) == h.timestamp && Word(p, 4) == h.ackTimestamp;
    assert Word(p, 8) == h.recvDelay && Word(p, 12) == h.length;
  }

  lemma HeaderLayout(h: Qos.Header, payload: seq<byte>)
    ensures var p := Package(h, payload);
            && |p| == 16 + |payload| && p[16..] == payload
            && Spells(p[0..4], h.timestamp) && Spells(p[4..8], h.ackTimestamp)
            && Spells(p[8..12], h.recvDelay) && Spells(p[12..16], h.length)
  {
    WordBytes(h.timestamp);
    WordBytes(h.ackTimestamp);
    WordBytes(h.recvDelay);
    WordBytes(h.length);
    var p, words := Package(h, payload), [h.timestamp, h.ackTimestamp, h.recvDelay, h.length];
    forall k | 0 <= k < 4
      ensures p[4 * k..4 * k + 4] == LittleEndianBytes(words[k])
    {
    }
    assert p[0..4] == LittleEndianBytes(words[0]) && p[4..8] == LittleEndianBytes(words[1]);
    assert p[8..12] == LittleEndianBytes(words[2]) && p[12..16] == LittleEndianBytes(words[3]);
  }

  /** Whatever chunks the stream arrives in, the receiver sees exactly the headers that were sent, in order. */
  lemma SentHeadersArrive(sent: seq<Qos.Header>, payloads: seq<seq<byte>>, chunks: seq<seq<byte>>)
    requires |payloads| == |sent| && forall i :: 0 <= i < |sent| ==> |payloads[i]| == sent[i].length
    requires Flatten(chunks) == Flatten(seq(|sent|, i requires 0 <= i < |sent| => Package(sent[i], payloads[i])))
    ensures Left(chunks) == [] && |Delivered(chunks)| == |sent|
    ensures forall i :: 0 <= i < |sent| ==> HeaderOf(Delivered(chunks)[i]) == sent[i]
  {
    var packages := seq(|sent|, i requires 0 <= i < |sent| => Package(sent[i], payloads[i]));
    forall i | 0 <= i < |sent|
      ensures IsPackage(packages[i]) && HeaderOf(packages[i]) == sent[i]
    {
      HeaderRoundTrip(sent[i], payloads[i]);
    }
    PackagesArrive(packages, chunks);
  }

  // ---------- what handled packages do ----------

  /** A package as a call handles it: the clock when the call received its bytes and at its reply, and what the send
      of that reply returns. */
  datatype Item = Item(package: seq<byte>, recvTs: uint32, now: uint32, rc: int)

  // The packages of one call: clock(0) is read behind recv, clock(i + 1) at the i-th reply, sends(i) its result.
  function Items(packages: seq<seq<byte>>, clock: nat -> uint32, sends: nat -> int): seq<Item> {
    seq(|packages|, i requires 0 <= i < |packages| => Item(packages[i], clock(0), clock(i + 1), sends(i)))
  }

  lemma ItemsSnoc(done: seq<seq<byte>>, p: seq<byte>, clock: nat -> uint32, sends: nat -> int)
    ensures Items(done + [p], clock, sends)
         == Items(done, clock, sends) + [Item(p, clock(0), clock(|done| + 1), sends(|done|))]
  {
  }

  lemma ItemsPrefix(a: seq<seq<byte>>, b: seq<seq<byte>>, clock: nat -> uint32, sends: nat -> int)
      returns (more: seq<Item>)
    ensures Items(a + b, clock, sends) == Items(a, clock, sends) + more
    ensures b == [] ==> more == []
  {
    more := Items(a + b, clock, sends)[|a|..];
  }

  // The server answers a package with its own stamp and the time it was kept.
  function ReplyTo(x: Item): Qos.Header {
    Qos.AckPackage(HeaderOf(x.package).timestamp, Sub32(x.now, x.recvTs), x.now)
  }

  /** How the loop over the packages ends: the bytes are used up; a reply met -EAGAIN and another package is complete,
      or can_send was 0 already, and then the loop goes round without end; or a reply failed otherwise, which closes
      the connection. On either side the loop goes astray behind a header that wraps: its pointer moves on by the
      announced length, far beyond the buffer. */
  datatype Outcome = Drained | Spinning | SendFailed | Astray

  // What the packages change: the client's protocol, the replies the server sent, and can_send.
  datatype State = State(qos: Qos.State, wire: seq<Qos.Header>, canSend: bool)

  // One package, and how the loop goes on: the client's protocol processes it, the server answers it if it can.
  function AfterItem(mode: Mode, x: Item, s: State): (State, Outcome) {
    if mode.Client? then (s.(qos := Qos.AfterAck(s.qos, HeaderOf(x.package), x.recvTs)), Drained)
    else if !s.canSend then (s, Spinning)
    else if x.rc > 0 then (s.(wire := s.wire + [ReplyTo(x)]), Drained)
    else if x.rc == -EAGAIN then (s.(canSend := false), Drained)
    else (s, SendFailed)
  }

  function AfterItems(mode: Mode, items: seq<Item>, s: State): (State, Outcome) {
    if items == [] then (s, Drained)
    else
      var (t, end) := AfterItems(mode, items[..|items| - 1], s);
      if end == Drained then AfterItem(mode, items[|items| - 1], t) else (t, end)
  }

  lemma AfterSnoc(mode: Mode, items: seq<Item>, x: Item, s: State)
    ensures var (t, end) := AfterItems(mode, items, s);
            AfterItems(mode, items + [x], s) == if end == Drained then AfterItem(mode, x, t) else (t, end)
  {
    assert (items + [x])[..|items|] == items;
  }

  /** Packages may be handled in any number of steps: what follows a loop that ended by itself goes on from its state,
      and what follows one that is stuck or failed changes nothing. */
  lemma {:induction false} ItemsCompose(mode: Mode, a: seq<Item>, b: seq<Item>, s: State)
    ensures var (t, end) := AfterItems(mode, a, s);
            AfterItems(mode, a + b, s) == if end == Drained then AfterItems(mode, b, t) else (t, end)
  {
    if b == [] {
      assert a + b == a;
    } else {
      assert (a + b)[..|a| + |b| - 1] == a + b[..|b| - 1];
      ItemsCompose(mode, a, b[..|b| - 1], s);
    }
  }

  // ---------- what they amount to ----------

  // The client's protocol processes every package, with the receive time of the call that delivered it.
  function AfterAcks(s: Qos.State, items: seq<Item>): Qos.State {
    if items == [] then s
    else
      var x := items[|items| - 1];
      Qos.AfterAck(AfterAcks(s, items[..|items| - 1]), HeaderOf(x.package), x.recvTs)
  }

  lemma {:induction false} ClientItems(items: seq<Item>, s: State)
    ensures AfterItems(Client, items, s) == (s.(qos := AfterAcks(s.qos, items)), Drained)
  {
    if items != [] {
      ClientItems(items[..|items| - 1], s);
    }
  }

  function Replies(items: seq<Item>): seq<Qos.Header> {
    seq(|items|, i requires 0 <= i < |items| => ReplyTo(items[i]))
  }

  // The first package whose reply is not sent, or the number of packages.
  function FirstFailure(items: seq<Item>): (k: nat)
    ensures k <= |items|
  {
    if items == [] then 0
    else
      var last := |items| - 1;
      var k := FirstFailure(items[..last]);
      if k == last && items[last].rc > 0 then |items| else k
  }

  lemma {:induction false} FirstFailureMeans(items: seq<Item>)
    ensures forall i :: 0 <= i < FirstFailure(items) ==> items[i].rc > 0
    ensures FirstFailure(items) < |items| ==> items[FirstFailure(items)].rc <= 0
  {
    if items != [] {
      FirstFailureMeans(items[..|items| - 1]);
    }
  }

  // The end of a server's loop over items that could send when it began and failed to at the k-th package.
  function EndAt(items: seq<Item>, k: nat): Outcome
    requires k <= |items|
  {
    if k == |items| then Drained
    else if items[k].rc != -EAGAIN then SendFailed
    else if k + 1 == |items| then Drained
    else Spinning
  }

  // The server has answered the packages before the k-th, and can_send falls if that met -EAGAIN.
  function AnswerFirst(items: seq<Item>, k: nat, s: State): State
    requires k <= |items|
  {
    s.(wire := s.wire + Replies(items[..k]), canSend := k == |items| || items[k].rc != -EAGAIN)
  }

  lemma AnswerOneMore(front: seq<Item>, x: Item, s: State)
    ensures AnswerFirst(front + [x], |front| + 1, s).wire == AnswerFirst(front, |front|, s).wire + [ReplyTo(x)]
  {
    var all := front + [x];
    assert all[..|front| + 1] == all && front[..|front|] == front;
    assert Replies(all) == Replies(front) + [ReplyTo(x)];
  }

  lemma {:induction false} ServerItems(items: seq<Item>, s: State)
    requires s.canSend
    ensures var k := FirstFailure(items); AfterItems(Server, items, s) == (AnswerFirst(items, k, s), EndAt(items, k))
  {
    if items == [] {
      assert s.wire + Replies([]) == s.wire;
    } else {
      var last := |items| - 1;
      var front, x := items[..last], items[last];
      var k := FirstFailure(front);
      ServerItems(front, s);
      FirstFailureMeans(front);
      assert items == front + [x];
      if k == last {
        AnswerOneMore(front, x, s);
      }
      assert items[..k] == front[..k];
    }
  }

  // ---------- the packages of a call ----------

  /** What is left after the complete packages starts with a header whose length wraps when the header length is
      added to it: the program takes it for a complete package. */
  predicate Wraps(stream: seq<byte>) { |Rest(stream)| >= HEADER_LEN && Size(Rest(stream)) >= TWO32 }

  // The packages a call handles: the complete ones, and then a header that wraps.
  function Handled(stream: seq<byte>): seq<seq<byte>> {
    if Wraps(stream) then Packages(stream) + [Rest(stream)[..HEADER_LEN]] else Packages(stream)
  }

  // A parse of stream that has delivered done and stands at ptr.
  ghost predicate ParsedTo(stream: seq<byte>, done: seq<seq<byte>>, ptr: nat) {
    && ptr <= |stream|
    && Packages(stream) == done + Packages(stream[ptr..])
    && Rest(stream) == Rest(stream[ptr..])
  }

  lemma ParseOneMore(stream: seq<byte>, done: seq<seq<byte>>, ptr: nat)
    requires ParsedTo(stream, done, ptr) && StartsComplete(stream[ptr..])
    ensures var size := Size(stream[ptr..]); ParsedTo(stream, done + [stream[ptr..ptr + size]], ptr + size)
  {
    var tail := stream[ptr..];
    var size := Size(tail);
    var p := stream[ptr..ptr + size];
    assert tail[..size] == p && tail[size..] == stream[ptr + size..];
    assert done + ([p] + Packages(tail[size..])) == (done + [p]) + Packages(tail[size..]);
  }

  lemma ParseDone(stream: seq<byte>, done: seq<seq<byte>>, ptr: nat)
    requires ParsedTo(stream, done, ptr) && !StartsComplete(stream[ptr..])
    ensures Packages(stream) == done && Rest(stream) == stream[ptr..]
    ensures Handled(stream) == if Wraps(stream) then done + [stream[ptr..ptr + HEADER_LEN]] else done
  {
    if Wraps(stream) {
      assert stream[ptr..][..HEADER_LEN] == stream[ptr..ptr + HEADER_LEN];
    }
  }

  // The size a header announces, as 32-bit addition computes it.
  lemma SizeWraps(s: seq<byte>)
    requires |s| >= HEADER_LEN
    ensures Add32(HEADER_LEN, Length(s)) == if Size(s) < TWO32 then Size(s) else Size(s) - TWO32
  {
  }

  // Where the loop ends by itself.
  lemma ParseStops(stream: seq<byte>, done: seq<seq<byte>>, ptr: nat)
    requires ParsedTo(stream, done, ptr)
    requires var tail := stream[ptr..]; |tail| < HEADER_LEN || |tail| < Add32(HEADER_LEN, Length(tail))
    ensures !Wraps(stream) && Handled(stream) == done && Rest(stream) == stream[ptr..]
  {
    if |stream[ptr..]| >= HEADER_LEN {
      SizeWraps(stream[ptr..]);
    }
    ParseDone(stream, done, ptr);
  }

  lemma HandledAfter(stream: seq<byte>, done: seq<seq<byte>>, ptr: nat) returns (more: seq<seq<byte>>)
    requires ParsedTo(stream, done, ptr)
    ensures Handled(stream) == done + more
  {
    more := Packages(stream[ptr..]);
    if Wraps(stream) {
      var last := [Rest(stream)[..HEADER_LEN]];
      Regroup(done, more, last);
      more := more + last;
    }
  }

  // A complete package at ptr, and what is handled after it.
  lemma CompleteNext(stream: seq<byte>, done: seq<seq<byte>>, ptr: nat) returns (p: seq<byte>, more: seq<seq<byte>>)
    requires ParsedTo(stream, done, ptr) && StartsComplete(stream[ptr..])
    ensures p == stream[ptr..ptr + Size(stream[ptr..])] && Handled(stream) == (done + [p]) + more
    ensures ParsedTo(stream, done + [p], ptr + Size(stream[ptr..]))
  {
    var end := ptr + Size(stream[ptr..]);
    p := stream[ptr..end];
    ParseOneMore(stream, done, ptr);
    more := HandledAfter(stream, done + [p], end);
  }

  // What stands at ptr, complete or taken for it, and what is handled after it.
  lemma NextPackage(stream: seq<byte>, done: seq<seq<byte>>, ptr: nat, size: nat)
      returns (p: seq<byte>, more: seq<seq<byte>>)
    requires ParsedTo(stream, done, ptr) && |stream| <= RECV_BUFFER_LEN && ptr + HEADER_LEN <= |stream|
    requires size == Add32(HEADER_LEN, Length(stream[ptr..])) && size <= |stream| - ptr
    ensures stream[ptr..ptr + HEADER_LEN] <= p && Handled(stream) == (done + [p]) + more
    ensures size >= HEADER_LEN ==> ParsedTo(stream, done + [p], ptr + size)
    ensures size < HEADER_LEN ==> Wraps(stream) && more == []
  {
    SizeWraps(stream[ptr..]);
    if size < HEADER_LEN {
      p, more := stream[ptr..ptr + HEADER_LEN], [];
      ParseDone(stream, done, ptr);
    } else {
      p, more := CompleteNext(stream, done, ptr);
      assert p[..HEADER_LEN] == stream[ptr..ptr + HEADER_LEN];
    }
  }

  // The call that parses this stream, and how it ends.
  function Call(stream: seq<byte>, clock: nat -> uint32, sends: nat -> int): seq<Item> {
    Items(Handled(stream), clock, sends)
  }

  // Bytes that are used up on a header that wraps leave the loop astray.
  function Finish(end: Outcome, wraps: bool): Outcome { if end == Drained && wraps then Astray else end }

  function AfterCall(mode: Mode, stream: seq<byte>, clock: nat -> uint32, sends: nat -> int, s: State)
      : (State, Outcome) {
    var (t, end) := AfterItems(mode, Call(stream, clock, sends), s);
    (t, Finish(end, Wraps(stream)))
  }

  /** A call that ends by itself leaves the buffer full, so that the next recv asks for zero bytes, exactly when the
      buffer was full and its first package is larger than the buffer, but not so large that its length wraps. */
  lemma {:induction false} BufferStaysFullExactlyWhen(mode: Mode, stream: seq<byte>, clock: nat -> uint32,
                                                      sends: nat -> int, s: State)
    requires |stream| <= 4096
    ensures AfterCall(mode, stream, clock, sends, s).1 == Drained && |Rest(stream)| == 4096
            <==> |stream| == 4096 && 4096 < Size(stream) < TWO32
  {
    if StartsComplete(stream) {
      ParseIsParse(stream[Size(stream)..]);
    }
  }

  // ---------- whole streams ----------

  // Each chunk fits the room the ones before it leave in the buffer.
  ghost predicate Fits(chunks: seq<seq<byte>>) {
    forall i :: 0 <= i < |chunks| ==> 0 < |chunks[i]| <= RECV_BUFFER_LEN - |Left(chunks[..i])|
  }

  /** One call per chunk, until one does not end by itself; clocks(i) and sends(i) are those of the i-th call. */
  function AfterChunks(mode: Mode, chunks: seq<seq<byte>>, clocks: nat -> nat -> uint32, sends: nat -> nat -> int,
                       s: State): (State, Outcome) {
    if chunks == [] then (s, Drained)
    else
      var last := |chunks| - 1;
      var (t, end) := AfterChunks(mode, chunks[..last], clocks, sends, s);
      if end != Drained then (t, end)
      else AfterCall(mode, Left(chunks[..last]) + chunks[last], clocks(last), sends(last), t)
  }

  /** The packages of the whole stream, each as the call that completes it would handle it; after a header that wraps
      there are none. */
  function StreamItems(chunks: seq<seq<byte>>, clocks: nat -> nat -> uint32, sends: nat -> nat -> int): seq<Item> {
    if chunks == [] then []
    else
      var last := |chunks| - 1;
      StreamItems(chunks[..last], clocks, sends)
      + (if Wraps(Flatten(chunks[..last])) then []
         else Call(Left(chunks[..last]) + chunks[last], clocks(last), sends(last)))
  }

  predicate AreItemsOf(items: seq<Item>, packages: seq<seq<byte>>) {
    |items| == |packages| && forall i :: 0 <= i < |items| ==> items[i].package == packages[i]
  }

  lemma ItemsOfBoth(a: seq<Item>, b: seq<Item>, pa: seq<seq<byte>>, pb: seq<seq<byte>>)
    requires AreItemsOf(a, pa) && AreItemsOf(b, pb)
    ensures AreItemsOf(a + b, pa + pb)
  {
    var s, p := a + b, pa + pb;
    forall i | 0 <= i < |s|
      ensures s[i].package == p[i]
    {
      if i < |a| {
        assert s[i] == a[i] && p[i] == pa[i];
      } else {
        assert s[i] == b[i - |a|] && p[i] == pb[i - |a|];
      }
    }
  }

  lemma CallHandles(stream: seq<byte>, clock: nat -> uint32, sends: nat -> int)
    ensures AreItemsOf(Call(stream, clock, sends), Handled(stream))
  {
  }

  lemma OneMoreChunk(front: seq<seq<byte>>, chunk: seq<byte>)
    ensures Left(front) == Rest(Flatten(front))
    ensures Wraps(Flatten(front + [chunk])) == Wraps(Left(front) + chunk)
    ensures !Wraps(Flatten(front)) ==>
              Handled(Flatten(front + [chunk])) == Handled(Flatten(front)) + Handled(Left(front) + chunk)
  {
    ChunksDoNotMatter(front);
    FlattenSnoc(front, chunk);
    ParseResumes(Flatten(front), chunk);
    var stream := Left(front) + chunk;
    if Wraps(stream) {
      Regroup(Packages(Flatten(front)), Packages(stream), [Rest(stream)[..HEADER_LEN]]);
    }
  }

  // Behind a header that wraps no further chunk is complete.
  lemma WrapsForGood(front: seq<seq<byte>>, chunk: seq<byte>)
    requires Wraps(Flatten(front)) && |Left(front)| + |chunk| <= RECV_BUFFER_LEN
    ensures Wraps(Flatten(front + [chunk])) && Handled(Flatten(front + [chunk])) == Handled(Flatten(front))
  {
    OneMoreChunk(front, chunk);
    ParseResumes(Flatten(front), chunk);
    FlattenSnoc(front, chunk);
    var left, stream := Left(front), Left(front) + chunk;
    assert Length(stream) == Length(left) && stream[..HEADER_LEN] == left[..HEADER_LEN];
    assert !StartsComplete(stream) && Packages(stream) == [];
    assert Packages(Flatten(front)) + [] == Packages(Flatten(front));
  }

  // One call more, after calls that amount to `items`.
  lemma OneMoreCall(mode: Mode, front: seq<seq<byte>>, chunk: seq<byte>, items: seq<Item>, clock: nat -> uint32,
                    sends: nat -> int, s: State)
    requires |Left(front)| + |chunk| <= RECV_BUFFER_LEN && AreItemsOf(items, Handled(Flatten(front)))
    ensures var stream, chunks := Left(front) + chunk, front + [chunk];
            var all := items + if Wraps(Flatten(front)) then [] else Call(stream, clock, sends);
            var (t, end), (u, finish) := AfterItems(mode, items, s), AfterItems(mode, all, s);
            && AreItemsOf(all, Handled(Flatten(chunks)))
            && (u, Finish(finish, Wraps(Flatten(chunks))))
               == if Finish(end, Wraps(Flatten(front))) != Drained then (t, Finish(end, Wraps(Flatten(front))))
                  else AfterCall(mode, stream, clock, sends, t)
  {
    if Wraps(Flatten(front)) {
      WrapsForGood(front, chunk);
      assert items + [] == items;
    } else {
      var stream := Left(front) + chunk;
      OneMoreChunk(front, chunk);
      CallHandles(stream, clock, sends);
      ItemsOfBoth(items, Call(stream, clock, sends), Handled(Flatten(front)), Handled(stream));
      ItemsCompose(mode, items, Call(stream, clock, sends), s);
    }
  }

  /** However the stream is cut, its calls amount to one over all of its packages. */
  lemma {:induction false} RunIsOneCall(mode: Mode, chunks: seq<seq<byte>>, clocks: nat -> nat -> uint32,
                                        sends: nat -> nat -> int, s: State)
    requires Fits(chunks)
    ensures var items := StreamItems(chunks, clocks, sends);
            var (t, end) := AfterItems(mode, items, s);
            && AreItemsOf(items, Handled(Flatten(chunks)))
            && AfterChunks(mode, chunks, clocks, sends, s) == (t, Finish(end, Wraps(Flatten(chunks))))
  {
    if chunks != [] {
      var last := |chunks| - 1;
      var front, chunk := chunks[..last], chunks[last];
      assert chunks == front + [chunk];
      FitsPrefix(chunks, last);
      RunIsOneCall(mode, front, clocks, sends, s);
      OneMoreCall(mode, front, chunk, StreamItems(front, clocks, sends), clocks(last), sends(last), s);
    }
  }

  lemma FitsPrefix(chunks: seq<seq<byte>>, n: nat)
    requires Fits(chunks) && n <= |chunks|
    ensures Fits(chunks[..n])
  {
    assert forall i :: 0 <= i < n ==> chunks[..n][..i] == chunks[..i] && chunks[..n][i] == chunks[i];
  }

  /** A server that can send when the stream begins, its replies failing as they may. Only the first failure counts:
      the packages before it are answered, in order, each with its own stamp and the time it was kept, and the run
      fails exactly when it is not -EAGAIN, spins exactly when it is and another package follows, and otherwise ends
      by itself unless a header of the stream wraps. */
  lemma {:induction false} ServerRun(chunks: seq<seq<byte>>, clocks: nat -> nat -> uint32,
                                     sends: nat -> nat -> int, s: State)
    requires Fits(chunks) && s.canSend
    ensures var items, wraps := StreamItems(chunks, clocks, sends), Wraps(Flatten(chunks));
            var k, (t, end) := FirstFailure(items), AfterChunks(Server, chunks, clocks, sends, s);
            var blocks := k < |items| && items[k].rc == -EAGAIN;
            && AreItemsOf(items, Handled(Flatten(chunks)))
            && (forall i :: 0 <= i < k ==> items[i].rc > 0) && (k < |items| ==> items[k].rc <= 0)
            && t == State(s.qos, s.wire + Replies(items[..k]), !blocks)
            && (end == SendFailed <==> k < |items| && !blocks)
            && (end == Spinning <==> blocks && k + 1 < |items|)
            && (end == Drained <==> (k == |items| || (blocks && k + 1 == |items|)) && !wraps)
            && (end == Astray <==> (k == |items| || (blocks && k + 1 == |items|)) && wraps)
  {
    RunIsOneCall(Server, chunks, clocks, sends, s);
    ServerItems(StreamItems(chunks, clocks, sends), s);
    FirstFailureMeans(StreamItems(chunks, clocks, sends));
  }

  /** A client has processed every package of the stream, in order, each with the clock of the call that completed it,
      and goes astray exactly when a header of the stream wraps. */
  lemma {:induction false} ClientRun(chunks: seq<seq<byte>>, clocks: nat -> nat -> uint32,
                                     sends: nat -> nat -> int, s: State)
    requires Fits(chunks)
    ensures var items := StreamItems(chunks, clocks, sends);
            && AreItemsOf(items, Handled(Flatten(chunks)))
            && AfterChunks(Client, chunks, clocks, sends, s)
               == (s.(qos := AfterAcks(s.qos, items)), if Wraps(Flatten(chunks)) then Astray else Drained)
  {
    RunIsOneCall(Client, chunks, clocks, sends, s);
    ClientItems(StreamItems(chunks, clocks, sends), s);
  }

  // ---------- which call handles which package ----------

  /** Package i is handled by call at[i], behind `done[at[i]]` packages of earlier calls: with the clock behind that
      call's recv, and with the clock and the send result of its place in the call. */
  predicate Placed(items: seq<Item>, packages: seq<seq<byte>>, clocks: nat -> nat -> uint32,
                   sends: nat -> nat -> int, at: seq<nat>, done: seq<nat>) {
    && |items| == |packages| && Turns(at, done, |items|)
    && forall i :: 0 <= i < |items| ==>
         var j := at[i];
         items[i] == Item(packages[i], clocks(j)(0), clocks(j)(i - done[j] + 1), sends(j)(i - done[j]))
  }

  // done[j] of these packages are complete before call j, and at[i] is the call that completes the i-th.
  predicate Turns(at: seq<nat>, done: seq<nat>, n: nat) {
    && |at| == n && done != [] && done[|done| - 1] == n
    && forall i :: 0 <= i < n ==> at[i] + 1 < |done| && done[at[i]] <= i < done[at[i] + 1]
  }

  lemma PlacedStep(items: seq<Item>, packages: seq<seq<byte>>, more: seq<seq<byte>>, clocks: nat -> nat -> uint32,
                   sends: nat -> nat -> int, at: seq<nat>, done: seq<nat>)
    requires Placed(items, packages, clocks, sends, at, done)
    ensures var n := |done| - 1;
            Placed(items + Items(more, clocks(n), sends(n)), packages + more, clocks, sends,
                   at + seq(|more|, _ => n), done + [done[n] + |more|])
  {
  }

  // The number of packages complete before each call, and at the end.
  function Done(chunks: seq<seq<byte>>): seq<nat> {
    if chunks == [] then [0] else Done(chunks[..|chunks| - 1]) + [|Packages(Flatten(chunks))|]
  }

  ghost predicate Counts(chunks: seq<seq<byte>>, done: seq<nat>) {
    |done| == |chunks| + 1 && forall j :: 0 <= j <= |chunks| ==> done[j] == |Packages(Flatten(chunks[..j]))|
  }

  lemma {:induction false} DoneCounts(chunks: seq<seq<byte>>)
    ensures Counts(chunks, Done(chunks))
  {
    if chunks != [] {
      var front := chunks[..|chunks| - 1];
      DoneCounts(front);
      forall j | 0 <= j <= |chunks|
        ensures Done(chunks)[j] == |Packages(Flatten(chunks[..j]))|
      {
        if j <= |front| {
          assert chunks[..j] == front[..j];
        } else {
          assert chunks[..j] == chunks;
        }
      }
    }
  }

  // One chunk more: the packages of its call, and their items.
  lemma NextItems(front: seq<seq<byte>>, chunk: seq<byte>, clocks: nat -> nat -> uint32, sends: nat -> nat -> int)
      returns (more: seq<seq<byte>>)
    requires !Wraps(Flatten(front)) && !Wraps(Flatten(front + [chunk]))
    ensures Packages(Flatten(front + [chunk])) == Packages(Flatten(front)) + more
    ensures StreamItems(front + [chunk], clocks, sends)
         == StreamItems(front, clocks, sends) + Items(more, clocks(|front|), sends(|front|))
  {
    more := Packages(Left(front) + chunk);
    OneMoreChunk(front, chunk);
    assert (front + [chunk])[..|front|] == front;
  }

  // The calls up to chunk have handled their packages.
  ghost predicate CallsPlaced(chunks: seq<seq<byte>>, clocks: nat -> nat -> uint32, sends: nat -> nat -> int,
                              at: seq<nat>) {
    && |Done(chunks)| == |chunks| + 1
    && Placed(StreamItems(chunks, clocks, sends), Packages(Flatten(chunks)), clocks, sends, at, Done(chunks))
  }

  lemma OneCallPlaced(front: seq<seq<byte>>, chunk: seq<byte>, clocks: nat -> nat -> uint32,
                      sends: nat -> nat -> int, at: seq<nat>) returns (more: seq<nat>)
    requires CallsPlaced(front, clocks, sends, at)
    requires !Wraps(Flatten(front)) && !Wraps(Flatten(front + [chunk]))
    ensures CallsPlaced(front + [chunk], clocks, sends, more)
  {
    var ps := NextItems(front, chunk, clocks, sends);
    more := at + seq(|ps|, _ => |front|);
    PlacedStep(StreamItems(front, clocks, sends), Packages(Flatten(front)), ps, clocks, sends, at, Done(front));
    assert (front + [chunk])[..|front|] == front;
  }

  lemma NoPrefixWraps(front: seq<seq<byte>>, chunk: seq<byte>)
    requires !Wraps(Flatten(front + [chunk])) && |Left(front)| + |chunk| <= RECV_BUFFER_LEN
    ensures !Wraps(Flatten(front))
  {
    if Wraps(Flatten(front)) {
      WrapsForGood(front, chunk);
    }
  }

  /** The packages of a stream without a header that wraps, each with the call that handles it. */
  lemma {:induction false} ItemsOfCalls(chunks: seq<seq<byte>>, clocks: nat -> nat -> uint32,
                                        sends: nat -> nat -> int) returns (at: seq<nat>)
    requires Fits(chunks) && !Wraps(Flatten(chunks))
    ensures CallsPlaced(chunks, clocks, sends, at)
  {
    if chunks == [] {
      at := [];
    } else {
      var last := |chunks| - 1;
      var front, chunk := chunks[..last], chunks[last];
      assert chunks == front + [chunk];
      FitsPrefix(chunks, last);
      NoPrefixWraps(front, chunk);
      at := ItemsOfCalls(front, clocks, sends);
      at := OneCallPlaced(front, chunk, clocks, sends, at);
    }
  }

  // The stream of these headers and payloads.
  function Stream(sent: seq<Qos.Header>, payloads: seq<seq<byte>>): seq<byte>
    requires |payloads| == |sent|
  {
    Flatten(seq(|sent|, i requires 0 <= i < |sent| => Package(sent[i], payloads[i])))
  }

  lemma StreamArrives(sent: seq<Qos.Header>, payloads: seq<seq<byte>>, chunks: seq<seq<byte>>)
    requires |payloads| == |sent| && forall i :: 0 <= i < |sent| ==> |payloads[i]| == sent[i].length
    requires Flatten(chunks) == Stream(sent, payloads)
    ensures |Packages(Flatten(chunks))| == |sent| && !Wraps(Flatten(chunks))
    ensures forall i :: 0 <= i < |sent| ==> HeaderOf(Packages(Flatten(chunks))[i]) == sent[i]
  {
    SentHeadersArrive(sent, payloads, chunks);
    ChunksDoNotMatter(chunks);
  }

  /** The answers on the wire behind `before`, to the first n packages: the one to package i, completed by call
      j = at[i] behind done[j] others, carries the package's own stamp, the time from that call's recv to the answer on
      the wrapping clock, and the clock at the answer, and announces 4 bytes. */
  ghost predicate Answered(sent: seq<Qos.Header>, clocks: nat -> nat -> uint32, at: seq<nat>, done: seq<nat>, n: nat,
                           before: seq<Qos.Header>, after: seq<Qos.Header>)
    requires n <= |sent| && Turns(at, done, |sent|)
  {
    && |after| == |before| + n && after[..|before|] == before
    && forall i :: 0 <= i < n ==>
         var reply, j := after[|before| + i], at[i];
         && reply.timestamp == clocks(j)(i - done[j] + 1)
         && reply.ackTimestamp == sent[i].timestamp
         && reply.recvDelay == (clocks(j)(i - done[j] + 1) - clocks(j)(0)) % 0x1_0000_0000
         && reply.length == 4
  }

  /** How the n-th answer ends the run: the n before it are sent. Only -EAGAIN, -11, leaves the connection open; it ends
      the sending for good, and with another package behind it the call never returns. Any other failure closes. */
  ghost predicate EndsWith(sends: nat -> nat -> int, at: seq<nat>, done: seq<nat>, n: nat, canSend: bool, end: Outcome)
    requires n <= |at| && Turns(at, done, |at|)
  {
    && (forall i :: 0 <= i < n ==> sends(at[i])(i - done[at[i]]) > 0)
    && (n == |at| ==> canSend && end == Drained)
    && (n < |at| ==>
          var rc := sends(at[n])(n - done[at[n]]);
          && rc <= 0 && (canSend <==> rc != -11)
          && end == (if rc != -11 then SendFailed else if n + 1 < |at| then Spinning else Drained))
  }

  /** A server that receives these packages in any chunks answers, in order, those before the first reply that fails. */
  lemma {:induction false} ServerAnswers(sent: seq<Qos.Header>, payloads: seq<seq<byte>>, chunks: seq<seq<byte>>,
                                         clocks: nat -> nat -> uint32, sends: nat -> nat -> int, s: State)
      returns (at: seq<nat>, done: seq<nat>, n: nat)
    requires |payloads| == |sent| && forall i :: 0 <= i < |sent| ==> |payloads[i]| == sent[i].length
    requires Flatten(chunks) == Stream(sent, payloads) && Fits(chunks) && s.canSend
    ensures Turns(at, done, |sent|) && Counts(chunks, done) && n <= |sent|
    ensures var (t, end) := AfterChunks(Server, chunks, clocks, sends, s);
            && Answered(sent, clocks, at, done, n, s.wire, t.wire) && t.qos == s.qos
            && EndsWith(sends, at, done, n, t.canSend, end)
  {
    StreamArrives(sent, payloads, chunks);
    at := ItemsOfCalls(chunks, clocks, sends);
    done := Done(chunks);
    DoneCounts(chunks);
    var items := StreamItems(chunks, clocks, sends);
    n := FirstFailure(items);
    RunIsOneCall(Server, chunks, clocks, sends, s);
    ServerItems(items, s);
    AnswersAreSent(items, Packages(Flatten(chunks)), sent, clocks, sends, at, done, s);
    AnswersEnd(items, Packages(Flatten(chunks)), clocks, sends, at, done, s);
  }

  lemma AnswersAreSent(items: seq<Item>, packages: seq<seq<byte>>, sent: seq<Qos.Header>,
                       clocks: nat -> nat -> uint32, sends: nat -> nat -> int, at: seq<nat>, done: seq<nat>, s: State)
    requires Placed(items, packages, clocks, sends, at, done) && |packages| == |sent|
    requires forall i :: 0 <= i < |sent| ==> HeaderOf(packages[i]) == sent[i]
    ensures var n := FirstFailure(items); Answered(sent, clocks, at, done, n, s.wire, AnswerFirst(items, n, s).wire)
  {
    var n := FirstFailure(items);
    var after := AnswerFirst(items, n, s).wire;
    forall i | 0 <= i < n
      ensures after[|s.wire| + i] == ReplyTo(items[i])
      ensures ReplyTo(items[i]) == AnswerTo(sent[i], clocks(at[i]), i - done[at[i]])
    {
      assert after[|s.wire| + i] == Replies(items[..n])[i];
      assert items[i].package == packages[i];
    }
    assert after[..|s.wire|] == s.wire;
  }

  // The answer to the m-th package of a call.
  function AnswerTo(h: Qos.Header, clock: nat -> uint32, m: nat): Qos.Header {
    Qos.Header(clock(m + 1), h.timestamp, (clock(m + 1) - clock(0)) % 0x1_0000_0000, 4)
  }

  lemma AnswersEnd(items: seq<Item>, packages: seq<seq<byte>>, clocks: nat -> nat -> uint32,
                   sends: nat -> nat -> int, at: seq<nat>, done: seq<nat>, s: State)
    requires Placed(items, packages, clocks, sends, at, done)
    ensures var n := FirstFailure(items);
            EndsWith(sends, at, done, n, AnswerFirst(items, n, s).canSend, EndAt(items, n))
  {
    FirstFailureMeans(items);
    var n := FirstFailure(items);
    assert n < |items| ==> items[n].rc == sends(at[n])(n - done[at[n]]);
  }

  /** A client that receives these packages in any chunks processes every header, in order, with the clock behind the
      recv of the call that completed its package: these are the protocol states it goes through. */
  lemma {:induction false} ClientProcesses(sent: seq<Qos.Header>, payloads: seq<seq<byte>>, chunks: seq<seq<byte>>,
                                           clocks: nat -> nat -> uint32, sends: nat -> nat -> int, s: State)
      returns (at: seq<nat>, done: seq<nat>, states: seq<Qos.State>)
    requires |payloads| == |sent| && forall i :: 0 <= i < |sent| ==> |payloads[i]| == sent[i].length
    requires Flatten(chunks) == Stream(sent, payloads) && Fits(chunks)
    ensures Turns(at, done, |sent|) && Counts(chunks, done)
    ensures |states| == |sent| + 1 && states[0] == s.qos
    ensures forall i :: 0 <= i < |sent| ==> states[i + 1] == Qos.AfterAck(states[i], sent[i], clocks(at[i])(0))
    ensures AfterChunks(Client, chunks, clocks, sends, s) == (State(states[|sent|], s.wire, s.canSend), Drained)
  {
    StreamArrives(sent, payloads, chunks);
    at := ItemsOfCalls(chunks, clocks, sends);
    done := Done(chunks);
    DoneCounts(chunks);
    var items := StreamItems(chunks, clocks, sends);
    states := AcksOneByOne(s.qos, items);
    ClientRun(chunks, clocks, sends, s);
  }

  lemma {:induction false} AcksOneByOne(q: Qos.State, items: seq<Item>) returns (states: seq<Qos.State>)
    ensures |states| == |items| + 1 && states[0] == q && states[|items|] == AfterAcks(q, items)
    ensures forall i :: 0 <= i < |items| ==>
              states[i + 1] == Qos.AfterAck(states[i], HeaderOf(items[i].package), items[i].recvTs)
  {
    if items == [] {
      states := [q];
    } else {
      var last := |items| - 1;
      states := AcksOneByOne(q, items[..last]);
      states := states + [AfterAcks(q, items)];
    }
  }

  // ---------- runs in which something fails ----------

  // A header with no payload, as it stands in the buffer, and one that announces n bytes.
  function BareHeader(n: uint32): seq<byte> { seq(12, _ => 0) + LittleEndianBytes(n) }

  lemma BareHeaderLength(n: uint32, tail: seq<byte>)
    ensures |BareHeader(n) + tail| == HEADER_LEN + |tail| && Length(BareHeader(n) + tail) == n
  {
    BigEndianRoundTrip(n);
  }

  /** A lone header whose length wraps leads either side astray. */
  lemma WrappingHeaderLeadsAstray(mode: Mode, clock: nat -> uint32, s: State)
    requires s.canSend
    ensures AfterCall(mode, BareHeader(0xFFFF_FFF0), clock, _ => HEADER_LEN, s).1 == Astray
  {
    var h := BareHeader(0xFFFF_FFF0);
    BareHeaderLength(0xFFFF_FFF0, []);
    assert h + [] == h && !StartsComplete(h) && Wraps(h) && |Handled(h)| == 1;
    var call := Call(h, clock, _ => HEADER_LEN);
    assert call == [] + [call[0]];
    AfterSnoc(mode, [], call[0], s);
  }

  /** A full buffer of which the first package would need 5016 bytes stays full. */
  lemma OversizedPackageFillsTheBuffer(mode: Mode, clock: nat -> uint32, sends: nat -> int, s: State)
    ensures var stream := BareHeader(5000) + seq(RECV_BUFFER_LEN - HEADER_LEN, _ => 0);
            AfterCall(mode, stream, clock, sends, s) == (s, Drained) && |Rest(stream)| == RECV_BUFFER_LEN
  {
    var tail: seq<byte> := seq(RECV_BUFFER_LEN - HEADER_LEN, _ => 0);
    BareHeaderLength(5000, tail);
    BufferStaysFullExactlyWhen(mode, BareHeader(5000) + tail, clock, sends, s);
  }

  lemma TwoPackages(p: seq<byte>, q: seq<byte>)
    requires IsPackage(p) && IsPackage(q)
    ensures Handled(p + q) == [p, q]
  {
    assert [p, q][1..] == [q] && [q][1..] == [] && q + [] == q;
    assert Flatten([q]) == q && Flatten([p, q]) == p + q;
    assert p + q == Flatten([p, q]) + [];
    ParseIsUnique(p + q, [p, q], []);
  }

  lemma TwoItems(mode: Mode, x: Item, y: Item, s: State)
    ensures var (t, end) := AfterItem(mode, x, s);
            AfterItems(mode, [x, y], s) == if end == Drained then AfterItem(mode, y, t) else (t, end)
  {
    AfterSnoc(mode, [], x, s);
    AfterSnoc(mode, [x], y, s);
    assert [] + [x] == [x] && [x] + [y] == [x, y];
  }

  /** A server that receives two packages in one call, of which the first reply meets -EAGAIN, never leaves it. */
  lemma BlockedReplySpins(p: seq<byte>, q: seq<byte>, clock: nat -> uint32, s: State)
    requires IsPackage(p) && IsPackage(q)
    ensures AfterCall(Server, p + q, clock, _ => -EAGAIN, s).1 == Spinning
  {
    TwoPackages(p, q);
    var call := Call(p + q, clock, _ => -EAGAIN);
    assert call == [call[0], call[1]];
    TwoItems(Server, call[0], call[1], s);
  }
}
