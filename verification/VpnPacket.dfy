/** The tunnel's datagrams: a 24-byte header laid over a reused buffer, and the XOR of the payload. */
module VpnPacket {
  import opened Bytes

  const HEADER_SIZE := 24
  const XOR_KEY := 0x5A
  const CMD_DATA: Byte := 1
  const CMD_KEEPALIVE: Byte := 2

  /** "GROUP4VPN2026" with the NUL that `strcpy` writes and `memcmp` compares. */
  const AUTH_TOKEN: seq<Byte> := [71, 82, 79, 85, 80, 52, 86, 80, 78, 50, 48, 50, 54, 0]

  /** Exclusive or of the low `width` bits: each bit is the sum of the two bits modulo 2. */
  function XorBits(a: nat, b: nat, width: nat): (r: nat)
    ensures r < Pow2(width)
    decreases a, width
  {
    if width == 0 then 0 else 2 * XorBits(a / 2, b / 2, width - 1) + (a + b) % 2
  }

  function Xor(b: Byte): Byte {
    XorBits(b as int, XOR_KEY, 8) as Byte
  }

  function XorAll(s: seq<Byte>): (r: seq<Byte>)
    ensures |r| == |s|
    ensures forall i | 0 <= i < |s| :: r[i] == Xor(s[i])
  {
    seq(|s|, i requires 0 <= i < |s| => Xor(s[i]))
  }

  /** Bit i of a number. */
  function Bit(a: nat, i: nat): nat {
    if i == 0 then a % 2 else Bit(a / 2, i - 1)
  }

  /** Each of the low bits is flipped exactly where the other number has a one. */
  lemma {:induction false} XorBitAt(a: nat, b: nat, width: nat, i: nat)
    requires i < width
    ensures Bit(XorBits(a, b, width), i) == if Bit(b, i) == 0 then Bit(a, i) else 1 - Bit(a, i)
    decreases i
  {
    XorHalves(a, b, XorBits(a / 2, b / 2, width - 1));
    if i > 0 {
      XorBitAt(a / 2, b / 2, width - 1, i - 1);
    }
  }

  lemma XorHalves(a: nat, b: nat, q: nat)
    ensures var r := 2 * q + (a + b) % 2; r / 2 == q && r % 2 == if b % 2 == 0 then a % 2 else 1 - a % 2
  {
  }

  /** Encryption flips bits 1, 3, 4 and 6 of a byte, counted from the lowest, and no other. */
  lemma XorFlips(b: Byte, i: nat)
    requires i < 8
    ensures Bit(Xor(b) as int, i) == if i in {1, 3, 4, 6} then 1 - Bit(b as int, i) else Bit(b as int, i)
  {
    XorBitAt(b as int, XOR_KEY, 8, i);
    KeyBits();
  }

  lemma KeyBits()
    ensures forall i: nat | i < 8 :: Bit(XOR_KEY, i) == if i in {1, 3, 4, 6} then 1 else 0
  {
    assert Bit(90, 0) == 0 && Bit(90, 1) == Bit(45, 0) == 1 && Bit(90, 2) == Bit(45, 1) == Bit(22, 0) == 0;
    assert Bit(90, 3) == Bit(45, 2) == Bit(22, 1) == Bit(11, 0) == 1;
    assert Bit(90, 4) == Bit(45, 3) == Bit(22, 2) == Bit(11, 1) == Bit(5, 0) == 1;
    assert Bit(90, 5) == Bit(45, 4) == Bit(22, 3) == Bit(11, 2) == Bit(5, 1) == Bit(2, 0) == 0;
    assert Bit(90, 6) == Bit(45, 5) == Bit(22, 4) == Bit(11, 3) == Bit(5, 2) == Bit(2, 1) == Bit(1, 0) == 1;
    assert Bit(90, 7) == Bit(45, 6) == Bit(22, 5) == Bit(11, 4) == Bit(5, 3)
           == Bit(2, 2) == Bit(1, 1) == Bit(0, 0) == 0;
  }

  lemma XorBit(a: nat, b: nat, q: nat)
    ensures var r := 2 * q + (a + b) % 2; r / 2 == q && (r + b) % 2 == a % 2
  {
  }

  lemma {:induction false} XorBitsTwice(a: nat, b: nat, width: nat)
    requires a < Pow2(width)
    ensures XorBits(XorBits(a, b, width), b, width) == a
    decreases width
  {
    if width > 0 {
      XorBit(a, b, XorBits(a / 2, b / 2, width - 1));
      XorBitsTwice(a / 2, b / 2, width - 1);
    }
  }

  /** Encryption and decryption are the same operation. */
  lemma XorAllTwice(s: seq<Byte>)
    ensures XorAll(XorAll(s)) == s
  {
    forall i | 0 <= i < |s|
      ensures Xor(Xor(s[i])) == s[i]
    {
      XorBitsTwice(s[i] as int, XOR_KEY, 8);
    }
  }

  /** The buffer with the bytes from..to put through `Xor`. */
  function XorRange(packet: seq<Byte>, from: nat, to: nat): (r: seq<Byte>)
    requires from <= to <= |packet|
    ensures |r| == |packet|
  {
    seq(|packet|, i requires 0 <= i < |packet| => if from <= i < to then Xor(packet[i]) else packet[i])
  }

  /** The buffer with the data placed behind the header. */
  function Fill(packet: seq<Byte>, data: seq<Byte>): (r: seq<Byte>)
    requires HEADER_SIZE + |data| <= |packet|
    ensures |r| == |packet|
  {
    seq(|packet|, i requires 0 <= i < |packet| =>
      if HEADER_SIZE <= i < HEADER_SIZE + |data| then data[i - HEADER_SIZE] else packet[i])
  }

  /** `xor_crypt` on `len` bytes of the packet from an offset on. */
  method XorCrypt(packet: array<Byte>, offset: nat, len: nat)
    requires offset + len <= packet.Length
    modifies packet
    ensures packet[..] == XorRange(old(packet[..]), offset, offset + len)
  {
    ghost var before := packet[..];
    for i := 0 to len
      invariant forall k | offset <= k < offset + i :: packet[k] == Xor(before[k])
      invariant forall k | 0 <= k < packet.Length && !(offset <= k < offset + i) :: packet[k] == before[k]
    {
      packet[offset + i] := Xor(packet[offset + i]);
    }
  }

  // ---- The header ----------------------------------------------------------------------------

  /**
   * The header fields written over a buffer. The three padding bytes after the command and the last
   * two bytes of the token's array keep what they held.
   */
  function Stamp(packet: seq<Byte>, command: Byte, sequence: U32): (r: seq<Byte>)
    requires |packet| >= HEADER_SIZE
    ensures |r| == |packet|
  {
    seq(|packet|, i requires 0 <= i < |packet| => StampedByte(packet, command, sequence, i))
  }

  function StampedByte(packet: seq<Byte>, command: Byte, sequence: U32, i: nat): Byte
    requires i < |packet|
  {
    if i == 0 then command
    else if 4 <= i < 8 then EncodeU32(sequence)[i - 4]
    else if 8 <= i < 22 then AUTH_TOKEN[i - 8]
    else packet[i]
  }

  function Command(d: seq<Byte>): Byte
    requires |d| >= HEADER_SIZE
  {
    d[0]
  }

  function Sequence(d: seq<Byte>): U32
    requires |d| >= HEADER_SIZE
  {
    DecodeU32(d[4..8])
  }

  /** The check of an incoming datagram: a whole header with the token. */
  predicate Authentic(d: seq<Byte>) {
    |d| >= HEADER_SIZE && d[8..22] == AUTH_TOKEN
  }

  /** The tunnel packets a datagram stands for: none if it is refused or a keepalive, else its plain payload. */
  function Carried(d: seq<Byte>): seq<seq<Byte>> {
    if !Authentic(d) || Command(d) == CMD_KEEPALIVE then [] else [XorAll(d[HEADER_SIZE..])]
  }

  /** Any prefix of a stamped buffer that holds the header is authentic and carries the stamped fields. */
  lemma StampedPrefix(packet: seq<Byte>, command: Byte, sequence: U32, n: nat)
    requires HEADER_SIZE <= n <= |packet|
    ensures var d := Stamp(packet, command, sequence)[..n];
            && Authentic(d) && Command(d) == command && Sequence(d) == sequence
            && d[HEADER_SIZE..] == packet[HEADER_SIZE..n]
  {
    var d := Stamp(packet, command, sequence)[..n];
    U32RoundTrip(sequence);
    assert d[4..8] == EncodeU32(sequence) && d[8..22] == AUTH_TOKEN;
  }
}
