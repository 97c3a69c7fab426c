/** Fixed-width words of the modelled programs and the few operations that depend on the width. */
module Words {

  datatype Option<+T> = None | Some(value: T)

  const TWO32: int := 0x1_0000_0000

  type uint32 = x: int | 0 <= x < 0x1_0000_0000

  type byte = x: int | 0 <= x < 256

  // C's unsigned 32-bit addition and subtraction wrap around.
  function Add32(a: int, b: int): uint32 { (a + b) % TWO32 }

  function Sub32(a: int, b: int): uint32 { (a - b) % TWO32 }

  lemma Add32Sum(a: int, b: int)
    ensures Add32(Add32(a, 0), b) == Add32(a + b, 0) == Add32(a, b)
  {
  }

  lemma Add32Succ(a: int, n: int)
    ensures Add32(Add32(a, n), 1) == Add32(a, n + 1)
  {
    Add32Sum(a + n, 1);
  }

  // The value of an unsigned 32-bit word converted to a signed 32-bit int.
  function AsInt32(x: uint32): int { if x < 0x8000_0000 then x else x - TWO32 }

  // Four bytes as a word, least significant first: the order of the hosts the C programs run on.
  function LittleEndian32(b0: byte, b1: byte, b2: byte, b3: byte): uint32 {
    var b: (int, int, int, int) := (b0, b1, b2, b3);
    b.0 + b.1 * 0x100 + b.2 * 0x1_0000 + b.3 * 0x100_0000
  }

  function LittleEndianBytes(n: uint32): (bytes: seq<byte>)
    ensures |bytes| == 4
  {
    var b := BigEndian32(n);
    [b[3], b[2], b[1], b[0]]
  }

  // A word as four bytes, most significant first: network byte order.
  function BigEndian32(n: uint32): (bytes: seq<byte>)
    ensures |bytes| == 4
  {
    [n / 0x100 / 0x100 / 0x100, n / 0x100 / 0x100 % 0x100, n / 0x100 % 0x100, n % 0x100]
  }

  function FromBigEndian32(bytes: seq<byte>): uint32
    requires |bytes| == 4
  {
    LittleEndian32(bytes[3], bytes[2], bytes[1], bytes[0])
  }

  // Four bytes and the word they stand for: its digits in base 256, the lowest first.
  predicate Spells(b: seq<byte>, n: uint32) {
    && |b| >= 4
    && b[0] == n % 0x100 && b[1] == n / 0x100 % 0x100 && b[2] == n / 0x1_0000 % 0x100 && b[3] == n / 0x100_0000
  }

  /** The bytes of a word are its digits: the lowest first, or last in network byte order. */
  lemma WordBytes(n: uint32)
    ensures Spells(LittleEndianBytes(n), n)
    ensures BigEndian32(n) == [n / 0x100_0000, n / 0x1_0000 % 0x100, n / 0x100 % 0x100, n % 0x100]
  {
    assert n / 0x100 / 0x100 == n / 0x1_0000 && n / 0x1_0000 / 0x100 == n / 0x100_0000;
  }

  // Appending a digit in base 256, and taking it off again.
  lemma Digit(x: int, b: byte)
    ensures (x * 0x100 + b) / 0x100 == x && (x * 0x100 + b) % 0x100 == b
  {
  }

  lemma BigEndianRoundTrip(n: uint32)
    ensures FromBigEndian32(BigEndian32(n)) == n
  {
    var b, n1, n2 := BigEndian32(n), n / 0x100, n / 0x100 / 0x100;
    var top: int := b[0];
    assert n == n1 * 0x100 + b[3] && n1 == n2 * 0x100 + b[2] && n2 == top * 0x100 + b[1];
  }

  lemma FromBigEndianRoundTrip(bytes: seq<byte>)
    requires |bytes| == 4
    ensures BigEndian32(FromBigEndian32(bytes)) == bytes
  {
    var n := FromBigEndian32(bytes);
    var b: (int, int, int, int) := (bytes[0], bytes[1], bytes[2], bytes[3]);
    var n2 := b.0 * 0x100 + b.1;
    var n1 := n2 * 0x100 + b.2;
    assert n == n1 * 0x100 + b.3;
    Digit(b.0, bytes[1]);
    Digit(n2, bytes[2]);
    Digit(n1, bytes[3]);
  }

  lemma FirstWordSpells(b: seq<byte>)
    requires |b| >= 4
    ensures Spells(b, LittleEndian32(b[0], b[1], b[2], b[3]))
  {
    var reversed := [b[3], b[2], b[1], b[0]];
    FromBigEndianRoundTrip(reversed);
    WordBytes(FromBigEndian32(reversed));
  }
}
