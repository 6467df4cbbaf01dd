/**
 * One end of the tunnel: a loop over keepalives, the peer timeout, packets from the TUN device and
 * datagrams from the peer, all through one packet buffer.
 */
module VpnNode {
  import opened Bytes
  import opened VpnPacket

  /** BUFFER_SIZE, KEEPALIVE_INTERVAL and PEER_TIMEOUT; times are in seconds. */
  datatype Config = Config(bufferSize: nat, interval: nat, timeout: nat)

  predicate ValidConfig(c: Config) {
    c.bufferSize >= HEADER_SIZE
  }

  datatype NodeState = NodeState(packet: seq<Byte>, seqNo: U32, lastSent: int, lastReceived: int, peerAlive: bool)

  /** What reading the TUN device yields, if `select` reports it: a failure or a packet, maybe empty. */
  datatype FromTun = TunIdle | TunError | TunPacket(data: seq<Byte>)

  /** A datagram waiting at the socket, and the time at which it is stamped as received. */
  datatype FromPeer = PeerIdle | Datagram(data: seq<Byte>, at: int)

  /** What the outside does during one turn of the loop. */
  datatype Event = Event(now: int, tun: FromTun, peer: FromPeer)

  /** A turn leaves a state, the datagrams sent and the packets written to the TUN device. */
  datatype Turn = Turn(node: NodeState, sent: seq<seq<Byte>>, written: seq<seq<Byte>>)

  predicate Fits(c: Config, n: NodeState) {
    |n.packet| == c.bufferSize
  }

  function Start(packet: seq<Byte>, now: int): NodeState {
    NodeState(packet, 1, now, now, true)
  }

  // ---- The four parts of a turn --------------------------------------------------------------

  /** The keepalive: the whole buffer is zeroed, and its header sent. */
  function Keepalive(c: Config, n: NodeState, now: int): (t: Turn)
    requires ValidConfig(c) && Fits(c, n)
    ensures Fits(c, t.node)
  {
    if now - n.lastSent < c.interval then Turn(n, [], [])
    else
      var packet := Stamp(seq(c.bufferSize, _ => 0), CMD_KEEPALIVE, n.seqNo);
      Turn(n.(packet := packet, seqNo := Wrap32(n.seqNo + 1), lastSent := now), [packet[..HEADER_SIZE]], [])
  }

  function CheckTimeout(c: Config, n: NodeState, now: int): NodeState {
    if n.peerAlive && now - n.lastReceived > c.timeout then n.(peerAlive := false) else n
  }

  /** A TUN packet as far as it fits behind the header. */
  function Cut(c: Config, data: seq<Byte>): seq<Byte>
    requires ValidConfig(c)
  {
    if |data| <= c.bufferSize - HEADER_SIZE then data else data[..c.bufferSize - HEADER_SIZE]
  }

  /** What a turn reads from the TUN device and has to carry. */
  function Taken(c: Config, tun: FromTun): seq<seq<Byte>>
    requires ValidConfig(c)
  {
    if tun.TunPacket? && |Cut(c, tun.data)| > 0 then [Cut(c, tun.data)] else []
  }

  /** TUN to UDP: the payload is read behind the header, and both are sent. */
  function Forward(c: Config, n: NodeState, tun: FromTun): (t: Turn)
    requires ValidConfig(c) && Fits(c, n)
    ensures Fits(c, t.node)
  {
    if !tun.TunPacket? || |Cut(c, tun.data)| == 0 then Turn(n, [], [])
    else
      var end := HEADER_SIZE + |Cut(c, tun.data)|;
      var stamped := Stamp(Fill(n.packet, Cut(c, tun.data)), CMD_DATA, n.seqNo);
      var packet := XorRange(stamped, HEADER_SIZE, end);
      Turn(n.(packet := packet, seqNo := Wrap32(n.seqNo + 1)), [packet[..end]], [])
  }

  /** UDP to TUN: runts and datagrams without the token change nothing but the buffer. */
  function Receive(c: Config, n: NodeState, peer: FromPeer): (t: Turn)
    requires ValidConfig(c) && Fits(c, n)
    ensures Fits(c, t.node)
  {
    match peer
    case PeerIdle => Turn(n, [], [])
    case Datagram(data, at) =>
      var packet, end := Overlay(n.packet, data), Received(n.packet, data);
      if !Authentic(packet[..end]) then Turn(n.(packet := packet), [], [])
      else
        var heard := n.(packet := packet, lastReceived := at, peerAlive := true);
        if Command(packet) == CMD_KEEPALIVE then Turn(heard, [], [])
        else
          var plain := XorRange(packet, HEADER_SIZE, end);
          Turn(heard.(packet := plain), [], [plain[HEADER_SIZE..end]])
  }

  /** One turn of the loop. */
  function Step(c: Config, n: NodeState, e: Event): (t: Turn)
    requires ValidConfig(c) && Fits(c, n)
    ensures Fits(c, t.node)
  {
    var alive := Keepalive(c, n, e.now);
    var forwarded := Forward(c, CheckTimeout(c, alive.node, e.now), e.tun);
    var received := Receive(c, forwarded.node, e.peer);
    Turn(received.node, alive.sent + forwarded.sent, received.written)
  }

  // ---- The loop itself -----------------------------------------------------------------------

  class Node {
    const c: Config
    const packet: array<Byte>
    var seqNo: U32
    var lastKeepaliveSent: int
    var lastPacketReceived: int
    var peerAlive: bool

    ghost predicate Valid()
      reads this, packet
    {
      ValidConfig(c) && Fits(c, State())
    }

    ghost function State(): NodeState
      reads this, packet
    {
      NodeState(packet[..], seqNo, lastKeepaliveSent, lastPacketReceived, peerAlive)
    }

    constructor (c: Config, junk: seq<Byte>, now: int)
      requires ValidConfig(c) && |junk| == c.bufferSize
      ensures this.c == c && fresh(packet) && Valid() && State() == Start(junk, now)
    {
      this.c := c;
      packet := new Byte[|junk|](i requires 0 <= i < |junk| => junk[i]);
      seqNo, lastKeepaliveSent, lastPacketReceived, peerAlive := 1, now, now, true;
    }

    /** The field assignments through the header pointer. */
    method WriteHeader(command: Byte)
      requires Valid()
      modifies this, packet
      ensures Valid()
      ensures State() == old(State()).(packet := Stamp(old(packet[..]), command, old(seqNo)),
                                       seqNo := Wrap32(old(seqNo) + 1))
    {
      var word := EncodeU32(seqNo);
      packet[0] := command;
      forall k | 0 <= k < 4 {
        packet[4 + k] := word[k];
      }
      seqNo := Wrap32(seqNo + 1);
      forall k | 0 <= k < |AUTH_TOKEN| {
        packet[8 + k] := AUTH_TOKEN[k];
      }
      assert packet[..] == Stamp(old(packet[..]), command, old(seqNo));
    }

    method SendKeepalive(now: int) returns (sent: seq<seq<Byte>>)
      requires Valid()
      modifies this, packet
      ensures Valid() && Turn(State(), sent, []) == Keepalive(c, old(State()), now)
    {
      sent := [];
      if now - lastKeepaliveSent >= c.interval {
        forall k | 0 <= k < packet.Length {
          packet[k] := 0;
        }
        assert packet[..] == seq(c.bufferSize, _ => 0 as Byte);
        WriteHeader(CMD_KEEPALIVE);
        sent := [packet[..HEADER_SIZE]];
        lastKeepaliveSent := now;
      }
    }

    method ForwardFromTun(tun: FromTun) returns (sent: seq<seq<Byte>>)
      requires Valid()
      modifies this, packet
      ensures Valid() && Turn(State(), sent, []) == Forward(c, old(State()), tun)
    {
      sent := [];
      if tun.TunPacket? {
        var data := Cut(c, tun.data);
        var n := |data|;
        forall k | 0 <= k < n {
          packet[HEADER_SIZE + k] := data[k];
        }
        assert packet[..] == Fill(old(packet[..]), data);
        if n > 0 {
          WriteHeader(CMD_DATA);
          XorCrypt(packet, HEADER_SIZE, n);
          sent := [packet[..HEADER_SIZE + n]];
        }
      }
    }

    method ReceiveFromPeer(peer: FromPeer) returns (written: seq<seq<Byte>>)
      requires Valid()
      modifies this, packet
      ensures Valid() && Turn(State(), [], written) == Receive(c, old(State()), peer)
    {
      written := [];
      if peer.Datagram? {
        var n := if |peer.data| <= packet.Length then |peer.data| else packet.Length;
        forall k | 0 <= k < n {
          packet[k] := peer.data[k];
        }
        assert packet[..] == Overlay(old(packet[..]), peer.data);
        if n >= HEADER_SIZE {
          assert packet[8..22] == packet[..n][8..22];
          if packet[8..22] != AUTH_TOKEN {
            return;
          }
          lastPacketReceived := peer.at;
          if !peerAlive {
            peerAlive := true;
          }
          if packet[0] == CMD_KEEPALIVE {
            return;
          }
          XorCrypt(packet, HEADER_SIZE, n - HEADER_SIZE);
          written := [packet[HEADER_SIZE..n]];
        }
      }
    }

    /** One turn of the loop, after `select` has returned. */
    method Iterate(e: Event) returns (sent: seq<seq<Byte>>, written: seq<seq<Byte>>)
      requires Valid()
      modifies this, packet
      ensures Valid() && Turn(State(), sent, written) == Step(c, old(State()), e)
    {
      sent := SendKeepalive(e.now);
      if peerAlive && e.now - lastPacketReceived > c.timeout {
        peerAlive := false;
      }
      var forwarded := ForwardFromTun(e.tun);
      sent := sent + forwarded;
      written := ReceiveFromPeer(e.peer);
    }
  }
}
