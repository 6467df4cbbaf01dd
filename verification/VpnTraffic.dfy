/** What the tunnel carries over whole runs of its two ends. */
module VpnTraffic {
  import opened Bytes
  import opened VpnPacket
  import opened VpnNode

  /** The state after the first i turns of a run. */
  function At(c: Config, n: NodeState, script: nat -> Event, i: nat): (r: NodeState)
    requires ValidConfig(c) && Fits(c, n)
    ensures Fits(c, r)
  {
    if i == 0 then n else Step(c, At(c, n, script, i - 1), script(i - 1)).node
  }

  /** The datagrams that the first i turns send. */
  function Sent(c: Config, n: NodeState, script: nat -> Event, i: nat): seq<seq<Byte>>
    requires ValidConfig(c) && Fits(c, n)
  {
    if i == 0 then []
    else Sent(c, n, script, i - 1) + Step(c, At(c, n, script, i - 1), script(i - 1)).sent
  }

  /** The packets that the first i turns write to the TUN device. */
  function Written(c: Config, n: NodeState, script: nat -> Event, i: nat): seq<seq<Byte>>
    requires ValidConfig(c) && Fits(c, n)
  {
    if i == 0 then []
    else Written(c, n, script, i - 1) + Step(c, At(c, n, script, i - 1), script(i - 1)).written
  }

  /** The packets the first i turns take from the TUN device. */
  function TakenAll(c: Config, script: nat -> Event, i: nat): seq<seq<Byte>>
    requires ValidConfig(c)
  {
    if i == 0 then [] else TakenAll(c, script, i - 1) + Taken(c, script(i - 1).tun)
  }

  /** The datagrams the first i turns receive, as far as the buffer holds them. */
  function Arrived(c: Config, script: nat -> Event, i: nat): seq<seq<Byte>>
  {
    if i == 0 then [] else Arrived(c, script, i - 1) + ArrivedOne(c, script(i - 1).peer)
  }

  function ArrivedOne(c: Config, peer: FromPeer): seq<seq<Byte>> {
    match peer
    case PeerIdle => []
    case Datagram(data, _) => [if |data| <= c.bufferSize then data else data[..c.bufferSize]]
  }

  function CarriedAll(ds: seq<seq<Byte>>): seq<seq<Byte>> {
    if ds == [] then [] else Carried(ds[0]) + CarriedAll(ds[1..])
  }

  lemma {:induction false} CarriedConcat(a: seq<seq<Byte>>, b: seq<seq<Byte>>)
    ensures CarriedAll(a + b) == CarriedAll(a) + CarriedAll(b)
  {
    if a == [] {
      assert a + b == b;
    } else {
      assert (a + b)[1..] == a[1..] + b;
      CarriedConcat(a[1..], b);
    }
  }

  lemma CarriedSnoc(ds: seq<seq<Byte>>, d: seq<Byte>)
    ensures CarriedAll(ds + [d]) == CarriedAll(ds) + Carried(d)
  {
    CarriedConcat(ds, [d]);
    assert [d][1..] == [];
  }

  // ---- One turn ------------------------------------------------------------------------------

  /** The datagrams are authentic and numbered from a sequence number on. */
  predicate Numbered(sent: seq<seq<Byte>>, first: U32) {
    forall k | 0 <= k < |sent| :: Authentic(sent[k]) && Sequence(sent[k]) == Wrap32(first + k)
  }

  /** They use up the sequence numbers up to `next`, and carry these packets. */
  predicate Traffic(sent: seq<seq<Byte>>, first: U32, next: U32, packets: seq<seq<Byte>>) {
    Numbered(sent, first) && next == Wrap32(first + |sent|) && CarriedAll(sent) == packets
  }

  lemma WrapTwice(x: nat, y: nat)
    ensures Wrap32(Wrap32(x) + y) == Wrap32(x + y)
  {
  }

  lemma NoTraffic(first: U32)
    ensures Traffic([], first, first, [])
  {
  }

  lemma OneMore(sent: seq<seq<Byte>>, first: U32, next: U32, packets: seq<seq<Byte>>, d: seq<Byte>)
    requires Traffic(sent, first, next, packets) && Authentic(d) && Sequence(d) == next
    ensures Traffic(sent + [d], first, Wrap32(next + 1), packets + Carried(d))
  {
    CarriedSnoc(sent, d);
    WrapTwice(first + |sent|, 1);
  }

  lemma KeepaliveSends(c: Config, n: NodeState, now: int,
                       sent: seq<seq<Byte>>, first: U32, packets: seq<seq<Byte>>)
    requires ValidConfig(c) && Fits(c, n) && Traffic(sent, first, n.seqNo, packets)
    ensures var t := Keepalive(c, n, now); Traffic(sent + t.sent, first, t.node.seqNo, packets)
  {
    if now - n.lastSent >= c.interval {
      var d := Keepalive(c, n, now).sent[0];
      StampedPrefix(seq(c.bufferSize, _ => 0), CMD_KEEPALIVE, n.seqNo, HEADER_SIZE);
      OneMore(sent, first, n.seqNo, packets, d);
      assert packets + Carried(d) == packets;
    } else {
      assert sent + [] == sent;
    }
  }

  /** A keepalive is the same but for its sequence number: nothing of the buffer leaks into it. */
  lemma KeepaliveBytes(c: Config, n: NodeState, now: int)
    requires ValidConfig(c) && Fits(c, n) && now - n.lastSent >= c.interval
    ensures Keepalive(c, n, now).sent
            == [[2, 0, 0, 0] + EncodeU32(n.seqNo) + AUTH_TOKEN + [0, 0]]
  {
    var d := Keepalive(c, n, now).sent[0];
    assert d == [2, 0, 0, 0] + EncodeU32(n.seqNo) + AUTH_TOKEN + [0, 0];
  }

  lemma XorBehindHeader(packet: seq<Byte>, end: nat)
    requires HEADER_SIZE <= end <= |packet|
    ensures var d, p := XorRange(packet, HEADER_SIZE, end)[..end], packet[..end];
            d[..HEADER_SIZE] == p[..HEADER_SIZE] && d[HEADER_SIZE..] == XorAll(p[HEADER_SIZE..])
  {
  }

  /** What `ForwardFromTun` makes of a packet: a datagram that carries it. */
  lemma DataDatagram(packet: seq<Byte>, data: seq<Byte>, seqNo: U32)
    requires HEADER_SIZE + |data| <= |packet|
    ensures var end := HEADER_SIZE + |data|;
            var d := XorRange(Stamp(Fill(packet, data), CMD_DATA, seqNo), HEADER_SIZE, end)[..end];
            && Authentic(d) && Sequence(d) == seqNo && Carried(d) == [data]
            && |d| == end && d[0] == 1 && d[HEADER_SIZE..] == XorAll(data)
  {
    var end := HEADER_SIZE + |data|;
    var filled := Fill(packet, data);
    var stamped := Stamp(filled, CMD_DATA, seqNo)[..end];
    var d := XorRange(Stamp(filled, CMD_DATA, seqNo), HEADER_SIZE, end)[..end];
    StampedPrefix(filled, CMD_DATA, seqNo, end);
    assert filled[HEADER_SIZE..end] == data;
    XorBehindHeader(Stamp(filled, CMD_DATA, seqNo), end);
    assert d[8..22] == d[..HEADER_SIZE][8..22] && stamped[8..22] == stamped[..HEADER_SIZE][8..22];
    assert d[4..8] == d[..HEADER_SIZE][4..8] && stamped[4..8] == stamped[..HEADER_SIZE][4..8];
    XorAllTwice(data);
  }

  /** A packet from the TUN device is what its datagram carries, whatever the buffer held before. */
  lemma ForwardSends(c: Config, n: NodeState, tun: FromTun,
                     sent: seq<seq<Byte>>, first: U32, packets: seq<seq<Byte>>)
    requires ValidConfig(c) && Fits(c, n) && Traffic(sent, first, n.seqNo, packets)
    ensures var t := Forward(c, n, tun); Traffic(sent + t.sent, first, t.node.seqNo, packets + Taken(c, tun))
  {
    if Taken(c, tun) != [] {
      DataDatagram(n.packet, Cut(c, tun.data), n.seqNo);
      OneMore(sent, first, n.seqNo, packets, Forward(c, n, tun).sent[0]);
    } else {
      assert sent + [] == sent && packets + [] == packets;
    }
  }

  /** A turn sends consecutively numbered datagrams that carry just what it took from the TUN device. */
  lemma StepSends(c: Config, n: NodeState, e: Event, sent: seq<seq<Byte>>, first: U32, packets: seq<seq<Byte>>)
    requires ValidConfig(c) && Fits(c, n) && Traffic(sent, first, n.seqNo, packets)
    ensures var t := Step(c, n, e); Traffic(sent + t.sent, first, t.node.seqNo, packets + Taken(c, e.tun))
  {
    var alive := Keepalive(c, n, e.now);
    var checked := CheckTimeout(c, alive.node, e.now);
    KeepaliveSends(c, n, e.now, sent, first, packets);
    ForwardSends(c, checked, e.tun, sent + alive.sent, first, packets);
    assert sent + alive.sent + Forward(c, checked, e.tun).sent == sent + Step(c, n, e).sent;
  }

  /** A turn writes just what the datagram it received carries, whatever its buffer held before. */
  lemma ReceiveWrites(c: Config, n: NodeState, peer: FromPeer)
    requires ValidConfig(c) && Fits(c, n)
    ensures Receive(c, n, peer).written == CarriedAll(ArrivedOne(c, peer))
  {
    if peer.Datagram? {
      var packet, end := Overlay(n.packet, peer.data), Received(n.packet, peer.data);
      var d := ArrivedOne(c, peer)[0];
      assert packet[..end] == d;
      CarriedSnoc([], d);
      assert [] + [d] == [d] && [] + Carried(d) == Carried(d);
      if Authentic(d) {
        assert packet[HEADER_SIZE..end] == d[HEADER_SIZE..];
        assert XorRange(packet, HEADER_SIZE, end)[HEADER_SIZE..end] == XorAll(d[HEADER_SIZE..]);
      }
    }
  }

  lemma StepWrites(c: Config, n: NodeState, e: Event)
    requires ValidConfig(c) && Fits(c, n)
    ensures Step(c, n, e).written == CarriedAll(ArrivedOne(c, e.peer))
  {
    ReceiveWrites(c, Forward(c, CheckTimeout(c, Keepalive(c, n, e.now).node, e.now), e.tun).node, e.peer);
  }

  /** A datagram without the token leaves no trace but in the buffer: no write, no sign of life. */
  lemma Unauthorized(c: Config, n: NodeState, data: seq<Byte>, at: int)
    requires ValidConfig(c) && Fits(c, n)
    ensures var t := Receive(c, n, Datagram(data, at));
            var d := if |data| <= c.bufferSize then data else data[..c.bufferSize];
            if |d| >= HEADER_SIZE && d[8..22] == AUTH_TOKEN then
              && t.node.lastReceived == at && t.node.peerAlive
              && t.written == if d[0] == 2 then [] else [XorAll(d[HEADER_SIZE..])]
            else t.node == n.(packet := Overlay(n.packet, data)) && t.written == []
  {
    var d := ArrivedOne(c, Datagram(data, at))[0];
    assert Overlay(n.packet, data)[..Received(n.packet, data)] == d;
    ReceiveWrites(c, n, Datagram(data, at));
    CarriedSnoc([], d);
    assert [] + [d] == [d] && [] + Carried(d) == Carried(d);
  }

  lemma ForwardOne(c: Config, near: NodeState, data: seq<Byte>) returns (d: seq<Byte>)
    requires ValidConfig(c) && Fits(c, near) && |Cut(c, data)| > 0
    ensures Forward(c, near, TunPacket(data)).sent == [d]
    ensures |d| <= c.bufferSize && Authentic(d) && Carried(d) == [Cut(c, data)]
  {
    DataDatagram(near.packet, Cut(c, data), near.seqNo);
    d := Forward(c, near, TunPacket(data)).sent[0];
  }

  lemma ReceiveOne(c: Config, far: NodeState, d: seq<Byte>, at: int)
    requires ValidConfig(c) && Fits(c, far) && |d| <= c.bufferSize && Authentic(d)
    ensures var t := Receive(c, far, Datagram(d, at));
            t.written == Carried(d) && t.node.lastReceived == at && t.node.peerAlive
  {
    ReceiveWrites(c, far, Datagram(d, at));
    CarriedSnoc([], d);
    assert [] + [d] == [d] && [] + Carried(d) == Carried(d);
    Unauthorized(c, far, d, at);
  }

  /**
   * One packet through the tunnel: any packet is accepted and written by the other end, unchanged up to
   * the room behind the header, whatever either buffer held before.
   */
  lemma PacketRoundTrip(c: Config, near: NodeState, far: NodeState, data: seq<Byte>, at: int)
    requires ValidConfig(c) && Fits(c, near) && Fits(c, far)
    requires data != [] && c.bufferSize > HEADER_SIZE
    ensures var sent, room := Forward(c, near, TunPacket(data)).sent, c.bufferSize - HEADER_SIZE;
            && |sent| == 1
            && var t := Receive(c, far, Datagram(sent[0], at));
               && t.written == [if |data| <= room then data else data[..room]]
               && t.node.lastReceived == at && t.node.peerAlive
  {
    var d := ForwardOne(c, near, data);
    ReceiveOne(c, far, d, at);
  }

  // ---- Whole runs ----------------------------------------------------------------------------

  /**
   * Over a run, datagram k carries sequence number first + k modulo 2^32, keepalives included, and all
   * together they carry the packets taken from the TUN device, in order.
   */
  lemma {:induction false} RunSends(c: Config, n: NodeState, script: nat -> Event, i: nat)
    requires ValidConfig(c) && Fits(c, n)
    ensures Traffic(Sent(c, n, script, i), n.seqNo, At(c, n, script, i).seqNo, TakenAll(c, script, i))
  {
    if i == 0 {
      NoTraffic(n.seqNo);
    } else {
      RunSends(c, n, script, i - 1);
      StepSends(c, At(c, n, script, i - 1), script(i - 1), Sent(c, n, script, i - 1), n.seqNo,
                TakenAll(c, script, i - 1));
    }
  }

  /** From the start of the program, the i-th datagram carries sequence number i modulo 2^32. */
  lemma SequenceNumbers(c: Config, junk: seq<Byte>, now: int, script: nat -> Event, turns: nat, i: nat)
    requires ValidConfig(c) && |junk| == c.bufferSize
    requires 1 <= i <= |Sent(c, Start(junk, now), script, turns)|
    ensures var d := Sent(c, Start(junk, now), script, turns)[i - 1];
            Authentic(d) && Sequence(d) == i % 0x1_0000_0000
  {
    RunSends(c, Start(junk, now), script, turns);
  }

  lemma {:induction false} RunWrites(c: Config, n: NodeState, script: nat -> Event, i: nat)
    requires ValidConfig(c) && Fits(c, n)
    ensures Written(c, n, script, i) == CarriedAll(Arrived(c, script, i))
  {
    if i > 0 {
      RunWrites(c, n, script, i - 1);
      StepWrites(c, At(c, n, script, i - 1), script(i - 1));
      CarriedConcat(Arrived(c, script, i - 1), ArrivedOne(c, script(i - 1).peer));
    }
  }

  /**
   * The tunnel is transparent: when the far end receives what the near end sent, it writes exactly the
   * packets the near end read, in order and unchanged, whatever keepalives, traffic in the other
   * direction and leftovers went through either buffer.
   */
  lemma TunnelTransparent(c: Config, near: NodeState, far: NodeState,
                          nearScript: nat -> Event, farScript: nat -> Event, i: nat, j: nat)
    requires ValidConfig(c) && Fits(c, near) && Fits(c, far)
    requires Arrived(c, farScript, j) == Sent(c, near, nearScript, i)
    ensures Written(c, far, farScript, j) == TakenAll(c, nearScript, i)
  {
    RunSends(c, near, nearScript, i);
    RunWrites(c, far, farScript, j);
  }

  lemma {:induction false} CarriedFrom(ds: seq<seq<Byte>>, all: seq<seq<Byte>>, p: seq<Byte>)
    requires forall d | d in ds :: d in all
    requires p in CarriedAll(ds)
    ensures p in CarriedAll(all)
  {
    if p in Carried(ds[0]) {
      assert ds[0] in all;
      var k :| 0 <= k < |all| && all[k] == ds[0];
      assert all == all[..k] + ([all[k]] + all[k + 1..]);
      CarriedConcat(all[..k], [all[k]] + all[k + 1..]);
      CarriedConcat([all[k]], all[k + 1..]);
      assert [ds[0]][1..] == [];
    } else {
      CarriedFrom(ds[1..], all, p);
    }
  }

  /** Over a channel that loses, repeats or reorders datagrams, every packet written was read at the near end. */
  lemma NothingInvented(c: Config, near: NodeState, far: NodeState,
                        nearScript: nat -> Event, farScript: nat -> Event, i: nat, j: nat)
    requires ValidConfig(c) && Fits(c, near) && Fits(c, far)
    requires forall d | d in Arrived(c, farScript, j) :: d in Sent(c, near, nearScript, i)
    ensures forall p | p in Written(c, far, farScript, j) :: p in TakenAll(c, nearScript, i)
  {
    RunSends(c, near, nearScript, i);
    RunWrites(c, far, farScript, j);
    forall p | p in Written(c, far, farScript, j)
      ensures p in TakenAll(c, nearScript, i)
    {
      CarriedFrom(Arrived(c, farScript, j), Sent(c, near, nearScript, i), p);
    }
  }
}
