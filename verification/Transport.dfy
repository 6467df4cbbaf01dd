/** A TCP byte stream and the loops that move a whole buffer over partial `send` and `recv` calls. */
module Transport {
  import opened Bytes

  /**
   * One direction of a connection: the bytes sent and not yet received.  The two scripts are the
   * adversary: `sendScript(n)` and `recvScript(n)` are what the n-th `send` and `recv` would like to
   * return, a failure when it is not positive and otherwise an upper bound on the bytes moved.
   */
  class Stream {
    var bytes: seq<Byte>
    var sendCalls: nat
    var recvCalls: nat
    const sendScript: nat -> int
    const recvScript: nat -> int

    constructor (sendScript: nat -> int, recvScript: nat -> int)
      ensures bytes == [] && this.sendScript == sendScript && this.recvScript == recvScript
    {
      bytes := [];
      sendCalls, recvCalls := 0, 0;
      this.sendScript, this.recvScript := sendScript, recvScript;
    }

    /** No call on this stream fails; how much each one moves is still arbitrary. */
    ghost predicate Healthy()
    {
      (forall n: nat :: sendScript(n) > 0) && (forall n: nat :: recvScript(n) > 0)
    }

    method Send(data: seq<Byte>) returns (sent: int)
      requires data != []
      modifies this`bytes, this`sendCalls
      ensures sent <= |data|
      ensures bytes == if sent <= 0 then old(bytes) else old(bytes) + data[..sent]
      ensures Healthy() ==> sent > 0
    {
      var k := sendScript(sendCalls);
      sendCalls := sendCalls + 1;
      if k <= 0 {
        return k;
      }
      sent := if k <= |data| then k else |data|;
      bytes := bytes + data[..sent];
    }

    /** `recv` into `buffer` at `offset`; an empty stream reads as end of file. */
    method Recv(buffer: array<Byte>, offset: nat, length: nat) returns (received: int)
      requires 0 < length && offset + length <= buffer.Length
      modifies this`bytes, this`recvCalls, buffer
      ensures received <= length
      ensures received > 0 ==>
        && received <= |old(bytes)|
        && bytes == old(bytes)[received..]
        && buffer[offset..offset + received] == old(bytes)[..received]
        && (forall k | 0 <= k < buffer.Length && !(offset <= k < offset + received) :: buffer[k] == old(buffer[k]))
      ensures received <= 0 ==> bytes == old(bytes) && buffer[..] == old(buffer[..])
      ensures Healthy() && old(bytes) != [] ==> received > 0
    {
      var k := recvScript(recvCalls);
      recvCalls := recvCalls + 1;
      if k <= 0 || bytes == [] {
        return if k <= 0 then k else 0;
      }
      received := if k <= length then k else length;
      received := if received <= |bytes| then received else |bytes|;
      forall j | 0 <= j < received {
        buffer[offset + j] := bytes[j];
      }
      bytes := bytes[received..];
    }
  }

  /** `send_all`: either every byte is in the stream, or a prefix is and the result is -1. */
  method SendAll(stream: Stream, data: seq<Byte>) returns (r: int)
    modifies stream`bytes, stream`sendCalls
    ensures r == -1 || r == |data|
    ensures r == |data| ==> stream.bytes == old(stream.bytes) + data
    ensures old(stream.bytes) <= stream.bytes <= old(stream.bytes) + data
    ensures stream.Healthy() ==> r == |data|
  {
    var totalSent := 0;
    while totalSent < |data|
      invariant 0 <= totalSent <= |data|
      invariant stream.bytes == old(stream.bytes) + data[..totalSent]
    {
      var sent := stream.Send(data[totalSent..]);
      if sent <= 0 {
        assert data == data[..totalSent] + data[totalSent..];
        return -1;
      }
      assert data[..totalSent] + data[totalSent..][..sent] == data[..totalSent + sent];
      totalSent := totalSent + sent;
    }
    assert data[..totalSent] == data;
    return totalSent;
  }

  /** What is left of a stream after some bytes were taken from its front. */
  predicate Rest(after: seq<Byte>, before: seq<Byte>) {
    |after| <= |before| && after == before[|before| - |after|..]
  }

  /**
   * `recv_all`: either the buffer holds exactly the next `length` bytes, however they were split, or
   * the result is -1 and fewer bytes are gone, which the buffer holds.  On a healthy stream only a
   * shortage of bytes is a failure.
   */
  method RecvAll(stream: Stream, buffer: array<Byte>, length: nat) returns (r: int)
    requires length <= buffer.Length
    modifies stream`bytes, stream`recvCalls, buffer
    ensures r == -1 || r == length
    ensures r == length ==>
      && length <= |old(stream.bytes)|
      && buffer[..length] == old(stream.bytes)[..length]
      && stream.bytes == old(stream.bytes)[length..]
    ensures r == -1 ==>
      && Rest(stream.bytes, old(stream.bytes)) && |old(stream.bytes)| - |stream.bytes| < length
      && buffer[..|old(stream.bytes)| - |stream.bytes|] <= old(stream.bytes)
    ensures stream.Healthy() ==> (r == length <==> length <= |old(stream.bytes)|)
  {
    var totalReceived := 0;
    while totalReceived < length
      invariant 0 <= totalReceived <= length
      invariant totalReceived <= |old(stream.bytes)|
      invariant buffer[..totalReceived] == old(stream.bytes)[..totalReceived]
      invariant stream.bytes == old(stream.bytes)[totalReceived..]
    {
      ghost var done := buffer[..totalReceived];
      var received := stream.Recv(buffer, totalReceived, length - totalReceived);
      if received <= 0 {
        return -1;
      }
      assert buffer[..totalReceived + received] == done + buffer[totalReceived..totalReceived + received];
      totalReceived := totalReceived + received;
    }
    return totalReceived;
  }
}
