/** Bytes, 32-bit words in network order as `htonl` leaves them in memory, and receive buffers. */
module Bytes {

  newtype Byte = x: int | 0 <= x < 256

  /** `uint32_t` values. */
  type U32 = x: int | 0 <= x < 0x1_0000_0000

  /** C's conversion of an unsigned result to `uint32_t`. */
  function Wrap32(x: int): (r: U32)
    ensures 0 <= x < 0x1_0000_0000 ==> r == x
  {
    x % 0x1_0000_0000
  }

  function EncodeU32(x: U32): (b: seq<Byte>)
    ensures |b| == 4
  {
    [(x / 0x100_0000) as Byte, (x / 0x1_0000 % 0x100) as Byte, (x / 0x100 % 0x100) as Byte, (x % 0x100) as Byte]
  }

  function DecodeU32(b: seq<Byte>): (x: U32)
    requires |b| == 4
  {
    b[0] as int * 0x100_0000 + b[1] as int * 0x1_0000 + b[2] as int * 0x100 + b[3] as int
  }

  lemma U32RoundTrip(x: U32)
    ensures DecodeU32(EncodeU32(x)) == x
  {
    assert x / 0x100 / 0x100 == x / 0x1_0000 && x / 0x1_0000 / 0x100 == x / 0x100_0000;
  }

  /** The four bytes are determined by the word, so equal words come from equal bytes. */
  lemma U32BytesRoundTrip(b: seq<Byte>)
    requires |b| == 4
    ensures EncodeU32(DecodeU32(b)) == b
  {
    var x := DecodeU32(b);
    assert x / 0x100 == b[0] as int * 0x1_0000 + b[1] as int * 0x100 + b[2] as int;
    assert x / 0x1_0000 == b[0] as int * 0x100 + b[1] as int;
  }

  /** Order of byte strings: the first difference decides. */
  predicate Before(a: seq<Byte>, b: seq<Byte>)
    requires |a| == |b|
  {
    a != [] && (a[0] < b[0] || (a[0] == b[0] && Before(a[1..], b[1..])))
  }

  /** Network order puts the most significant byte first, so words are ordered as their bytes are. */
  lemma U32InOrder(x: U32, y: U32)
    ensures x < y <==> Before(EncodeU32(x), EncodeU32(y))
  {
    var a, b := EncodeU32(x), EncodeU32(y);
    U32RoundTrip(x);
    U32RoundTrip(y);
    BeforeFour(a, b);
  }

  lemma BeforeFour(a: seq<Byte>, b: seq<Byte>)
    requires |a| == |b| == 4
    ensures Before(a, b) <==> DecodeU32(a) < DecodeU32(b)
  {
    var a1, b1 := a[1..], b[1..];
    var a2, b2 := a1[1..], b1[1..];
    var a3, b3 := a2[1..], b2[1..];
    assert Before(a3, b3) <==> a[3] < b[3] by {
      assert a3[1..] == [] && a3[0] == a[3] && b3[0] == b[3];
    }
    assert Before(a2, b2) <==> a[2] < b[2] || (a[2] == b[2] && a[3] < b[3]);
    assert Before(a1, b1) <==> a[1] < b[1] || (a[1] == b[1] && Before(a2, b2));
  }

  /** A datagram laid over whatever the buffer held; a long datagram is cut. */
  function Overlay(buffer: seq<Byte>, datagram: seq<Byte>): seq<Byte> {
    if |datagram| <= |buffer| then datagram + buffer[|datagram|..] else datagram[..|buffer|]
  }

  /** How many bytes such a `recvfrom` reports. */
  function Received(buffer: seq<Byte>, datagram: seq<Byte>): nat {
    if |datagram| <= |buffer| then |datagram| else |buffer|
  }

  /** The received bytes come first, the rest of the buffer stays, and the buffer keeps its size. */
  lemma OverlayAt(buffer: seq<Byte>, datagram: seq<Byte>, k: nat)
    requires k < |buffer|
    ensures |Overlay(buffer, datagram)| == |buffer|
    ensures Overlay(buffer, datagram)[k] == if k < |datagram| then datagram[k] else buffer[k]
    ensures k < Received(buffer, datagram) <==> k < |datagram|
  {
  }

  function Pow2(n: nat): nat {
    if n == 0 then 1 else 2 * Pow2(n - 1)
  }
}
