/** The datagram codec of java_netprogramming/src/com/haska/udpio/Message.java. */
module MessageCodec {
  import opened Words

  const BODY_LEN := 512

  type int8 = x: int | -0x80 <= x < 0x80
  type int16 = x: int | -0x8000 <= x < 0x8000
  type int32 = x: int | -0x8000_0000 <= x < 0x8000_0000

  // The fields of a message; the body is the whole array, bodyLength what deserialize read into it.
  datatype Fields = Fields(version: int8, flag: int8, sequence: int16, timestamp: int32,
                           body: seq<byte>, bodyLength: int)

  // ---------- two's complement, network byte order ----------

  function Unsigned(x: int, range: int): int
    requires 0 < range && -range <= x < range
  {
    if x < 0 then x + range else x
  }

  function Signed(x: int, range: int): int
    requires 0 < range && 0 <= x < range
  {
    if x < range / 2 then x else x - range
  }

  function Byte(x: int8): seq<byte> { [Unsigned(x, 0x100)] }

  function Short(x: int16): seq<byte> {
    var u := Unsigned(x, 0x1_0000);
    [u / 0x100, u % 0x100]
  }

  function Int(x: int32): seq<byte> { BigEndian32(Unsigned(x, TWO32)) }

  function ByteAt(s: seq<byte>, at: nat): int8
    requires at < |s|
  {
    Signed(s[at], 0x100)
  }

  function ShortAt(s: seq<byte>, at: nat): int16
    requires at + 2 <= |s|
  {
    var high: int := s[at];
    Signed(high * 0x100 + s[at + 1], 0x1_0000)
  }

  function IntAt(s: seq<byte>, at: nat): int32
    requires at + 4 <= |s|
  {
    Signed(FromBigEndian32(s[at..at + 4]), TWO32)
  }

  // ---------- the two directions ----------

  function Header(f: Fields): seq<byte> { Byte(f.version) + Byte(f.flag) + Short(f.sequence) + Int(f.timestamp) }

  function Encode(f: Fields): seq<byte> { Header(f) + f.body }

  // What one read into a fresh array of 512 bytes leaves in it.
  function Padded(available: seq<byte>): seq<byte> {
    if |available| >= BODY_LEN then available[..BODY_LEN]
    else available + seq(BODY_LEN - |available|, _ => 0)
  }

  // read returns -1 at the end of the stream, never 0.
  function ReadCount(available: seq<byte>): int {
    if available == [] then -1 else if |available| < BODY_LEN then |available| else BODY_LEN
  }

  /** The message as it was, with the fields the data is long enough for replaced: an early end of the
      stream leaves the later fields alone. */
  function Decode(f: Fields, data: seq<byte>): Fields {
    if |data| < 1 then f
    else
      var f1 := f.(version := ByteAt(data, 0));
      if |data| < 2 then f1
      else
        var f2 := f1.(flag := ByteAt(data, 1));
        if |data| < 4 then f2
        else
          var f3 := f2.(sequence := ShortAt(data, 2));
          if |data| < 8 then f3
          else f3.(timestamp := IntAt(data, 4), body := Padded(data[8..]), bodyLength := ReadCount(data[8..]))
  }

  lemma HeaderRoundTrip(f: Fields, rest: seq<byte>)
    ensures var data := Header(f) + rest;
            && |Header(f)| == 8 && data[8..] == rest
            && ByteAt(data, 0) == f.version && ByteAt(data, 1) == f.flag
            && ShortAt(data, 2) == f.sequence && IntAt(data, 4) == f.timestamp
  {
    var data := Header(f) + rest;
    assert data[4..8] == Int(f.timestamp);
    BigEndianRoundTrip(Unsigned(f.timestamp, TWO32));
    var u := Unsigned(f.sequence, 0x1_0000);
    assert data[2] == u / 0x100 && data[3] == u % 0x100 && u == u / 0x100 * 0x100 + u % 0x100;
  }

  /** The layout: one byte each for version and flag, two for the sequence number and four for the timestamp, in two's
      complement and the highest byte first, and then the body. */
  lemma EncodeLayout(f: Fields)
    ensures var data, u, t := Encode(f), f.sequence % 0x1_0000, f.timestamp % 0x1_0000_0000;
            && |data| == 8 + |f.body| && data[8..] == f.body
            && data[0] == f.version % 0x100 && data[1] == f.flag % 0x100
            && data[2] == u / 0x100 && data[3] == u % 0x100
            && data[4] == t / 0x100_0000 && data[5] == t / 0x1_0000 % 0x100
            && data[6] == t / 0x100 % 0x100 && data[7] == t % 0x100
  {
    var data := Encode(f);
    WordBytes(Unsigned(f.timestamp, TWO32));
    assert Unsigned(f.timestamp, TWO32) == f.timestamp % 0x1_0000_0000;
    assert Unsigned(f.sequence, 0x1_0000) == f.sequence % 0x1_0000;
    assert data[4..8] == Int(f.timestamp);
  }

  // The array a body is read into: 512 bytes, zeros behind what the packet has.
  lemma PaddedMeans(available: seq<byte>)
    ensures |Padded(available)| == 512
    ensures forall i :: 0 <= i < 512 ==> Padded(available)[i] == if i < |available| then available[i] else 0
  {
  }

  /** A packet that ends early replaces the fields it has whole and leaves the others and the body as they were. */
  lemma ShortPacketKeepsTheRest(f: Fields, data: seq<byte>)
    requires |data| < 8
    ensures var g := Decode(f, data);
            && g.timestamp == f.timestamp && g.body == f.body && g.bodyLength == f.bodyLength
            && (|data| < 4 ==> g.sequence == f.sequence)
            && (|data| < 2 ==> g.flag == f.flag) && (|data| < 1 ==> g.version == f.version)
            && (|data| >= 1 ==> g.version % 0x100 == data[0]) && (|data| >= 2 ==> g.flag % 0x100 == data[1])
            && (|data| >= 4 ==> g.sequence % 0x1_0000 / 0x100 == data[2] && g.sequence % 0x100 == data[3])
  {
    if |data| >= 4 {
      var high: int := data[2];
      Digit(high, data[3]);
      assert ShortAt(data, 2) % 0x1_0000 == high * 0x100 + data[3];
    }
  }

  /** For every message and every receiving object: all four header fields come back over their full signed ranges,
      and the body is cut or padded to 512 bytes. */
  lemma DecodeAfterEncode(f: Fields, receiver: Fields)
    ensures Decode(receiver, Encode(f))
         == Fields(f.version, f.flag, f.sequence, f.timestamp, Padded(f.body), ReadCount(f.body))
  {
    HeaderRoundTrip(f, f.body);
  }

  // The bytes toString shows: body[0..bodyLength].
  predicate Shows(f: Fields, text: seq<byte>) { 0 <= f.bodyLength <= |f.body| && f.body[..f.bodyLength] == text }

  /** The body comes back exactly when it has 1 to 512 bytes. A longer one comes back as its first 512 bytes;
      an empty one leaves bodyLength -1, which no text has. */
  lemma BodyComesBackExactlyWhen(f: Fields, receiver: Fields)
    ensures var g := Decode(receiver, Encode(f));
            && (Shows(g, f.body) <==> 1 <= |f.body| <= 512)
            && (|f.body| > 512 ==> Shows(g, f.body[..512]))
            && (f.body == [] ==> g.bodyLength == -1)
  {
    DecodeAfterEncode(f, receiver);
    if 1 <= |f.body| <= BODY_LEN {
      assert Padded(f.body)[..|f.body|] == f.body;
    }
    if |f.body| > BODY_LEN {
      assert Padded(f.body)[..BODY_LEN] == f.body[..BODY_LEN];
    }
  }

  /** Sending a received message on writes the whole padded array, so a datagram survives
      exactly when it has the full 520 bytes. */
  lemma ForwardingPads(f: Fields, data: seq<byte>)
    requires |data| >= 8
    ensures Encode(Decode(f, data)) == data[..8] + Padded(data[8..])
    ensures Encode(Decode(f, data)) == data <==> |data| == 520
  {
    var g := Decode(f, data);
    WordsRoundTrip(data);
    assert Header(g) == data[..8];
    assert data == data[..8] + data[8..];
    if |data| == 8 + BODY_LEN {
      assert Padded(data[8..]) == data[8..];
    }
  }

  lemma ShortRoundTrip(data: seq<byte>, at: nat)
    requires at + 2 <= |data|
    ensures Short(ShortAt(data, at)) == data[at..at + 2]
  {
    var high: int := data[at];
    var u := high * 0x100 + data[at + 1];
    assert Unsigned(Signed(u, 0x1_0000), 0x1_0000) == u;
    Digit(high, data[at + 1]);
  }

  lemma IntRoundTrip(data: seq<byte>, at: nat)
    requires at + 4 <= |data|
    ensures Int(IntAt(data, at)) == data[at..at + 4]
  {
    FromBigEndianRoundTrip(data[at..at + 4]);
    assert Unsigned(IntAt(data, at), TWO32) == FromBigEndian32(data[at..at + 4]);
  }

  lemma WordsRoundTrip(data: seq<byte>)
    requires |data| >= 8
    ensures Byte(ByteAt(data, 0)) + Byte(ByteAt(data, 1)) + Short(ShortAt(data, 2)) + Int(IntAt(data, 4)) == data[..8]
  {
    ShortRoundTrip(data, 2);
    IntRoundTrip(data, 4);
    assert data[..8] == [data[0]] + [data[1]] + data[2..4] + data[4..8];
  }

  // ---------- the objects ----------

  // The shared ByteArrayOutputStream behind a DataOutputStream.
  class Output {
    var bytes: seq<byte>

    constructor ()
      ensures bytes == []
    {
      bytes := [];
    }

    method Reset()
      modifies this
      ensures bytes == []
    {
      bytes := [];
    }

    method Write(more: seq<byte>)
      modifies this
      ensures bytes == old(bytes) + more
    {
      bytes := bytes + more;
    }
  }

  // A DataInputStream over a datagram; None is an EOFException.
  class Input {
    const data: seq<byte>
    var at: nat

    constructor (data: seq<byte>)
      ensures this.data == data && at == 0
    {
      this.data := data;
      at := 0;
    }

    method Take(n: nat) returns (bytes: Option<seq<byte>>)
      requires at <= |data|
      modifies this
      ensures bytes == if old(at) + n <= |data| then Some(data[old(at)..old(at) + n]) else None
      ensures at == (if bytes.Some? then old(at) + n else |data|)
    {
      if at + n > |data| {
        at := |data|;
        return None;
      }
      bytes := Some(data[at..at + n]);
      at := at + n;
    }
  }

  class Message {
    var version: int8
    var flag: int8
    var sequence: int16
    var timestamp: int32
    var body: seq<byte>
    var bodyLength: int

    ghost function Value(): Fields
      reads this
    {
      Fields(version, flag, sequence, timestamp, body, bodyLength)
    }

    constructor (f: Fields)
      ensures Value() == f
    {
      version, flag, sequence, timestamp := f.version, f.flag, f.sequence, f.timestamp;
      body, bodyLength := f.body, f.bodyLength;
    }

    // Whatever an earlier message left in the shared buffer is gone.
    method Serialize(out: Output) returns (packet: seq<byte>)
      modifies out
      ensures packet == Encode(Value())
    {
      out.Reset();
      out.Write(Byte(version));
      out.Write(Byte(flag));
      out.Write(Short(sequence));
      out.Write(Int(timestamp));
      out.Write(body);
      packet := out.bytes;
    }

    method Deserialize(packet: seq<byte>)
      modifies this
      ensures Value() == Decode(old(Value()), packet)
    {
      var input := new Input(packet);
      var bytes := input.Take(1);
      if bytes == None {
        return;
      }
      version := ByteAt(bytes.value, 0);
      bytes := input.Take(1);
      if bytes == None {
        return;
      }
      flag := ByteAt(bytes.value, 0);
      bytes := input.Take(2);
      if bytes == None {
        return;
      }
      sequence := ShortAt(bytes.value, 0);
      bytes := input.Take(4);
      if bytes == None {
        return;
      }
      assert bytes.value[0..4] == packet[4..8];
      timestamp := IntAt(bytes.value, 0);
      body := Padded(packet[input.at..]);
      bodyLength := ReadCount(packet[input.at..]);
    }
  }
}
