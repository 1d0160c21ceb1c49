/** The fixed 8-byte header and the patterned payload of the echo messages. */
module UdpWire {
  import opened Options

  type byte = x: int | 0 <= x < 256
  type u32 = x: int | 0 <= x < 0x1_0000_0000

  const MESSAGE_VERSION: byte := 1
  const TCP: byte := 1
  const UDP: byte := 2

  /** Magic 0x4c53, version, protocol and the sequence, the numbers in network byte order. */
  function Header(protocol: byte, sequence: u32): (h: seq<byte>)
    ensures |h| == 8
  {
    [0x4c, 0x53, MESSAGE_VERSION, protocol,
     sequence / 0x100_0000, sequence / 0x1_0000 % 0x100, sequence / 0x100 % 0x100, sequence % 0x100]
  }

  function NetworkToHost(b: seq<byte>): u32
    requires |b| == 4
  {
    var b0: int, b1: int, b2: int := b[0], b[1], b[2];
    b0 * 0x100_0000 + b1 * 0x1_0000 + b2 * 0x100 + b[3]
  }

  /** None is the runtime_error for a short message or an invalid header. */
  function ReadSequence(bytes: seq<byte>, protocol: byte): Option<u32> {
    if |bytes| < 8 then None
    else if bytes[..2] != [0x4c, 0x53] || bytes[2] != MESSAGE_VERSION || bytes[3] != protocol then None
    else Some(NetworkToHost(bytes[4..8]))
  }

  /** A message of `size` bytes: header, then byte i is (17 i + 0xa5) mod 256. */
  function Message(size: nat, protocol: byte, sequence: u32): (m: seq<byte>)
    requires size >= 8
    ensures |m| == size
  {
    Header(protocol, sequence) + seq<byte>(size - 8, i requires 0 <= i => ((i + 8) * 17 + 0xa5) % 256)
  }

  /** The wire format byte by byte: magic, version, protocol, the sequence in network byte order, then the pattern. */
  lemma WireFormat(size: nat, protocol: byte, sequence: u32)
    requires size >= 8
    ensures var m := Message(size, protocol, sequence);
            && m[0] == 0x4c && m[1] == 0x53 && m[2] == 1 && m[3] == protocol
            && (m[4] as int) * 0x100_0000 + (m[5] as int) * 0x1_0000 + (m[6] as int) * 0x100 + m[7] == sequence
            && forall i :: 8 <= i < size ==> m[i] == (i * 17 + 0xa5) % 256
  {
    var m := Message(size, protocol, sequence);
    assert m[4..8] == Header(protocol, sequence)[4..8] == Header(TCP, sequence)[4..8];
    NumberRoundTrip(sequence);
    assert m[4] == m[4..8][0] && m[5] == m[4..8][1] && m[6] == m[4..8][2] && m[7] == m[4..8][3];
  }

  lemma NumberRoundTrip(sequence: u32)
    ensures NetworkToHost(Header(TCP, sequence)[4..8]) == sequence
  {}

  lemma BytesRoundTrip(b: seq<byte>)
    requires |b| == 4
    ensures Header(TCP, NetworkToHost(b))[4..8] == b
  {
    Digits(b[0], b[1], b[2], b[3]);
  }

  lemma Digits(a: byte, b: byte, c: byte, d: byte)
    ensures var n: int := (a as int) * 0x100_0000 + (b as int) * 0x1_0000 + (c as int) * 0x100 + d;
            n / 0x100_0000 == a && n / 0x1_0000 % 0x100 == b && n / 0x100 % 0x100 == c && n % 0x100 == d
  {
    var high: int := (a as int) * 0x100 + b;
    var middle: int := high * 0x100 + c;
    var n: int := middle * 0x100 + d;
    assert n / 0x100 == middle && n % 0x100 == d;
    assert n / 0x1_0000 == high && middle % 0x100 == c;
    assert n / 0x100_0000 == a && high % 0x100 == b;
  }

  /** Writing then reading gives the sequence back, and only that header reads as it. */
  lemma HeaderRoundTrip(bytes: seq<byte>, protocol: byte, sequence: u32)
    ensures ReadSequence(bytes, protocol) == Some(sequence) <==> |bytes| >= 8 && bytes[..8] == Header(protocol, sequence)
  {
    NumberRoundTrip(sequence);
    if |bytes| >= 8 {
      BytesRoundTrip(bytes[4..8]);
      assert bytes[..8] == bytes[..2] + [bytes[2], bytes[3]] + bytes[4..8];
      assert Header(protocol, sequence) == [0x4c, 0x53] + [MESSAGE_VERSION, protocol] + Header(TCP, sequence)[4..8];
      if bytes[..8] == Header(protocol, sequence) {
        assert bytes[..2] == bytes[..8][..2] && bytes[4..8] == bytes[..8][4..8];
      }
    }
  }

  lemma MessageReadsBack(size: nat, protocol: byte, sequence: u32)
    requires size >= 8
    ensures ReadSequence(Message(size, protocol, sequence), protocol) == Some(sequence)
  {
    HeaderRoundTrip(Message(size, protocol, sequence), protocol, sequence);
  }

  /** Overwrites the header in place; a buffer below 8 bytes is the invalid_argument. */
  method WriteHeader(bytes: array<byte>, protocol: byte, sequence: u32) returns (ok: bool)
    modifies bytes
    ensures ok == (bytes.Length >= 8)
    ensures ok ==> bytes[..] == Header(protocol, sequence) + old(bytes[8..])
    ensures !ok ==> bytes[..] == old(bytes[..])
  {
    if bytes.Length < 8 {
      return false;
    }
    bytes[0], bytes[1] := 0x4c, 0x53;
    bytes[2] := MESSAGE_VERSION;
    bytes[3] := protocol;
    bytes[4], bytes[5] := sequence / 0x100_0000, sequence / 0x1_0000 % 0x100;
    bytes[6], bytes[7] := sequence / 0x100 % 0x100, sequence % 0x100;
    return true;
  }

  /** The whole template message, as the client prepares it once. */
  method InitializeMessage(bytes: array<byte>, protocol: byte) returns (ok: bool)
    modifies bytes
    ensures ok == (bytes.Length >= 8)
    ensures ok ==> bytes[..] == Message(bytes.Length, protocol, 0)
  {
    ok := WriteHeader(bytes, protocol, 0);
    if !ok {
      return;
    }
    for index := 8 to bytes.Length
      invariant bytes[..8] == Header(protocol, 0)
      invariant forall i :: 8 <= i < index ==> bytes[i] == (i * 17 + 0xa5) % 256
    {
      bytes[index] := (index * 17 + 0xa5) % 256;
    }
  }

  /** Rewriting the header of any message of the session gives the message with that sequence. */
  lemma Restamped(size: nat, protocol: byte, s: u32, t: u32)
    requires size >= 8
    ensures Header(protocol, t) + Message(size, protocol, s)[8..] == Message(size, protocol, t)
  {}
}
