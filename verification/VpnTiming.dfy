/** When the tunnel's ends believe in each other: the liveness flag and the keepalive schedule. */
module VpnTiming {
  import opened Bytes
  import opened VpnPacket
  import opened VpnNode
  import opened VpnTraffic

  datatype Option<T> = None | Some(value: T)

  /** During turn i the clock does not go back, and it has not before turn i + 1. */
  predicate Ordered(script: nat -> Event, i: nat) {
    && script(i).now <= script(i + 1).now
    && (script(i).peer.Datagram? ==> script(i).now <= script(i).peer.at <= script(i + 1).now)
  }

  /** A monotone clock that starts no earlier than the program. */
  ghost predicate Monotone(script: nat -> Event, start: int) {
    start <= script(0).now && forall i: nat :: Ordered(script, i)
  }

  // ---- The state's time stamps ---------------------------------------------------------------

  /** The datagram of a turn, if it is accepted as coming from the peer. */
  predicate Hears(c: Config, peer: FromPeer) {
    peer.Datagram? && Authentic(ArrivedOne(c, peer)[0])
  }

  /** When the last accepted datagram before turn i was received. */
  function LastHeard(c: Config, script: nat -> Event, start: int, i: nat): int {
    if i == 0 then start
    else if Hears(c, script(i - 1).peer) then script(i - 1).peer.at
    else LastHeard(c, script, start, i - 1)
  }

  /** When the last keepalive before turn i was sent. */
  function LastKeepalive(c: Config, script: nat -> Event, start: int, i: nat): int {
    if i == 0 then start
    else if script(i - 1).now - LastKeepalive(c, script, start, i - 1) >= c.interval then script(i - 1).now
    else LastKeepalive(c, script, start, i - 1)
  }

  /** A keepalive is due in turn i. */
  predicate Due(c: Config, script: nat -> Event, start: int, i: nat) {
    script(i).now - LastKeepalive(c, script, start, i) >= c.interval
  }

  /** The state right after the timeout check of turn i. */
  function Checked(c: Config, n: NodeState, script: nat -> Event, i: nat): NodeState
    requires ValidConfig(c) && Fits(c, n)
  {
    CheckTimeout(c, Keepalive(c, At(c, n, script, i), script(i).now).node, script(i).now)
  }

  lemma StepStamps(c: Config, n: NodeState, e: Event)
    requires ValidConfig(c) && Fits(c, n)
    ensures var r := Step(c, n, e).node;
            && r.lastSent == (if e.now - n.lastSent >= c.interval then e.now else n.lastSent)
            && r.lastReceived == (if Hears(c, e.peer) then e.peer.at else n.lastReceived)
            && (r.peerAlive <==> Hears(c, e.peer) || (n.peerAlive && e.now - n.lastReceived <= c.timeout))
  {
    var forwarded := Forward(c, CheckTimeout(c, Keepalive(c, n, e.now).node, e.now), e.tun).node;
    if e.peer.Datagram? {
      Unauthorized(c, forwarded, e.peer.data, e.peer.at);
    }
  }

  /** The node's time stamps are those of its last keepalive and its last accepted datagram. */
  lemma {:induction false} Stamps(c: Config, junk: seq<Byte>, start: int, script: nat -> Event, i: nat)
    requires ValidConfig(c) && |junk| == c.bufferSize
    ensures var n := At(c, Start(junk, start), script, i);
            n.lastSent == LastKeepalive(c, script, start, i) && n.lastReceived == LastHeard(c, script, start, i)
  {
    if i > 0 {
      Stamps(c, junk, start, script, i - 1);
      StepStamps(c, At(c, Start(junk, start), script, i - 1), script(i - 1));
    }
  }

  /** A dead peer was overdue already at the last check. */
  lemma {:induction false} DeadIsOverdue(c: Config, junk: seq<Byte>, start: int, script: nat -> Event, i: nat)
    requires ValidConfig(c) && |junk| == c.bufferSize && Monotone(script, start)
    ensures !At(c, Start(junk, start), script, i).peerAlive ==>
              i > 0 && script(i - 1).now - LastHeard(c, script, start, i) > c.timeout
  {
    if i > 0 {
      DeadIsOverdue(c, junk, start, script, i - 1);
      Stamps(c, junk, start, script, i - 1);
      StepStamps(c, At(c, Start(junk, start), script, i - 1), script(i - 1));
      if i > 1 {
        assert Ordered(script, i - 2);
      }
    }
  }

  /**
   * Right after every timeout check the flag tells the truth: the peer counts as alive exactly when its
   * last accepted datagram is at most PEER_TIMEOUT old.
   */
  lemma AliveIff(c: Config, junk: seq<Byte>, start: int, script: nat -> Event, i: nat)
    requires ValidConfig(c) && |junk| == c.bufferSize && Monotone(script, start)
    ensures Checked(c, Start(junk, start), script, i).peerAlive
            <==> script(i).now - LastHeard(c, script, start, i) <= c.timeout
  {
    DeadIsOverdue(c, junk, start, script, i);
    Stamps(c, junk, start, script, i);
    if i > 0 {
      assert Ordered(script, i - 1);
    }
  }

  // ---- The keepalive schedule ----------------------------------------------------------------

  lemma {:induction false} Later(script: nat -> Event, start: int, i: nat, j: nat)
    requires Monotone(script, start) && i <= j
    ensures script(i).now <= script(j).now
    decreases j - i
  {
    if i < j {
      assert Ordered(script, i);
      Later(script, start, i + 1, j);
    }
  }

  /** The clock advances by at most d from one turn to the next. */
  predicate GapAtMost(script: nat -> Event, d: nat, i: nat) {
    script(i + 1).now - script(i).now <= d
  }

  ghost predicate Paced(script: nat -> Event, start: int, d: nat) {
    script(0).now - start <= d && forall i: nat :: GapAtMost(script, d, i)
  }

  /** The turns before turn i that send a keepalive. */
  function KeepaliveTurns(c: Config, script: nat -> Event, start: int, i: nat): (s: seq<nat>)
    ensures forall x | x in s :: x < i && Due(c, script, start, x)
    ensures forall x: nat | x < i && Due(c, script, start, x) :: x in s
    ensures LastKeepalive(c, script, start, i) == if s == [] then start else script(s[|s| - 1]).now
  {
    if i == 0 then []
    else if Due(c, script, start, i - 1) then KeepaliveTurns(c, script, start, i - 1) + [i - 1]
    else KeepaliveTurns(c, script, start, i - 1)
  }

  /** Keepalives are at least the interval apart. */
  lemma {:induction false} KeepaliveSpacing(c: Config, script: nat -> Event, start: int, i: nat)
    ensures var s := KeepaliveTurns(c, script, start, i);
            && (s != [] ==> script(s[0]).now - start >= c.interval)
            && forall m: nat, m1: nat | m1 == m + 1 && m1 < |s| :: script(s[m1]).now - script(s[m]).now >= c.interval
  {
    if i > 0 {
      KeepaliveSpacing(c, script, start, i - 1);
    }
  }

  /** A turn sends a keepalive exactly when one is due. */
  lemma SendsWhenDue(c: Config, junk: seq<Byte>, start: int, script: nat -> Event, i: nat)
    requires ValidConfig(c) && |junk| == c.bufferSize
    ensures var sent := Keepalive(c, At(c, Start(junk, start), script, i), script(i).now).sent;
            if i in KeepaliveTurns(c, script, start, i + 1)
            then |sent| == 1 && |sent[0]| == HEADER_SIZE && sent[0][0] == 2
            else sent == []
  {
    Stamps(c, junk, start, script, i);
    var n := At(c, Start(junk, start), script, i);
    if Due(c, script, start, i) {
      KeepaliveBytes(c, n, script(i).now);
    }
  }

  /** These turns' keepalives follow each other at no more than this distance. */
  predicate Close(s: seq<nat>, script: nat -> Event, gap: int) {
    forall m: nat, m1: nat | m1 == m + 1 && m1 < |s| :: script(s[m1]).now - script(s[m]).now <= gap
  }

  /** Just after a turn the last keepalive is younger than the interval. */
  lemma SinceLast(c: Config, script: nat -> Event, start: int, i: nat)
    requires c.interval >= 1
    ensures script(i).now - LastKeepalive(c, script, start, i + 1) <= c.interval - 1
  {
  }

  /** Keepalives follow each other within KEEPALIVE_INTERVAL - 1 plus the loop's own delay. */
  lemma {:induction false} KeepaliveGap(c: Config, script: nat -> Event, start: int, d: nat, i: nat)
    requires c.interval >= 1 && Paced(script, start, d)
    ensures Close(KeepaliveTurns(c, script, start, i), script, c.interval - 1 + d)
  {
    if i > 0 {
      KeepaliveGap(c, script, start, d, i - 1);
      if Due(c, script, start, i - 1) && i > 1 {
        SinceLast(c, script, start, i - 2);
        assert GapAtMost(script, d, i - 2);
      }
    }
  }

  function Times(j: nat, g: int): int {
    if j == 0 then 0 else g + Times(j - 1, g)
  }

  lemma {:induction false} TimesIsProduct(j: nat, g: int)
    ensures Times(j, g) == j * g
  {
    if j > 0 {
      TimesIsProduct(j - 1, g);
    }
  }

  lemma TimesUp(j: nat, g: int)
    requires g >= 0
    ensures Times(j, g) >= 0
  {
  }

  /** From a keepalive at or before t, the next j follow within j gaps if the run lasts until `end`. */
  lemma {:induction false} Following(s: seq<nat>, script: nat -> Event, gap: int, end: int, m: nat, t: int, j: nat)
    requires gap >= 0 && Close(s, script, gap) && m < |s| && script(s[m]).now <= t
    requires end - script(s[|s| - 1]).now < gap && end >= t + Times(j, gap)
    ensures m + j < |s| && forall r | m <= r <= m + j :: script(s[r]).now <= t + Times(j, gap)
    decreases j
  {
    if j > 0 {
      TimesUp(j - 1, gap);
      var m1 := m + 1;
      assert m1 < |s|;
      assert script(s[m1]).now <= t + gap;
      Following(s, script, gap, end, m1, t + gap, j - 1);
    }
  }

  /** The last of the keepalives s[m..] that is not after t. */
  lemma {:induction false} LastBefore(s: seq<nat>, script: nat -> Event, t: int, m: nat) returns (r: nat)
    requires m < |s| && script(s[m]).now <= t
    ensures r < |s| && script(s[r]).now <= t
    ensures var r1 := r + 1; r1 < |s| ==> script(s[r1]).now > t
    decreases |s| - m
  {
    r := m;
    var m1 := m + 1;
    if m1 < |s| && script(s[m1]).now <= t {
      r := LastBefore(s, script, t, m1);
    }
  }

  predicate InOrder(s: seq<nat>, script: nat -> Event) {
    forall a, b | 0 <= a <= b < |s| :: script(s[a]).now <= script(s[b]).now
  }

  lemma {:induction false} TurnsInOrder(c: Config, script: nat -> Event, start: int, i: nat)
    requires Monotone(script, start)
    ensures InOrder(KeepaliveTurns(c, script, start, i), script)
  {
    if i > 0 {
      var s := KeepaliveTurns(c, script, start, i - 1);
      TurnsInOrder(c, script, start, i - 1);
      forall a | 0 <= a < |s|
        ensures script(s[a]).now <= script(i - 1).now
      {
        assert s[a] in s;
        Later(script, start, s[a], i - 1);
      }
    }
  }

  lemma WindowOf(s: seq<nat>, script: nat -> Event, gap: int, end: int, k: nat, i: nat, lo: int)
    returns (m: nat)
    requires gap >= 0 && Close(s, script, gap) && InOrder(s, script) && i < |s| && script(s[i]).now <= lo
    requires end - script(s[|s| - 1]).now < gap && end >= lo + Times(k + 1, gap)
    ensures m + k < |s| && forall r | m <= r <= m + k :: lo < script(s[r]).now <= lo + Times(k + 1, gap)
  {
    var m0 := LastBefore(s, script, lo, i);
    Following(s, script, gap, end, m0, lo, k + 1);
    m := m0 + 1;
  }

  lemma NotAfter(script: nat -> Event, start: int, first: nat, x: nat)
    requires Monotone(script, start) && script(first).now < script(x).now
    ensures first < x
  {
    if first >= x {
      Later(script, start, x, first);
    }
  }

  /** What a window needs to know about the keepalives up to turn x. */
  lemma TurnFacts(c: Config, script: nat -> Event, start: int, d: nat, x: nat)
    requires c.interval >= 1 && d >= 1 && Monotone(script, start) && Paced(script, start, d)
    ensures var s, gap := KeepaliveTurns(c, script, start, x + 1), c.interval - 1 + d;
            && Close(s, script, gap) && InOrder(s, script)
            && (s != [] ==> script(x).now - script(s[|s| - 1]).now < gap)
  {
    SinceLast(c, script, start, x);
    KeepaliveGap(c, script, start, d, x + 1);
    TurnsInOrder(c, script, start, x + 1);
  }

  lemma IndexOf(s: seq<nat>, first: nat) returns (i: nat)
    requires first in s
    ensures i < |s| && s[i] == first
  {
    i :| i < |s| && s[i] == first;
  }

  /** A window of k + 1 gaps after the first keepalive holds k + 1 consecutive keepalives. */
  lemma Window(c: Config, script: nat -> Event, start: int, d: nat, k: nat, first: nat, x: nat, lo: int)
    returns (s: seq<nat>, m: nat)
    requires c.interval >= 1 && d >= 1 && Monotone(script, start) && Paced(script, start, d)
    requires Due(c, script, start, first) && script(first).now <= lo
    requires script(x).now >= lo + Times(k + 1, c.interval - 1 + d)
    ensures s == KeepaliveTurns(c, script, start, x + 1) && m + k < |s|
    ensures forall r | m <= r <= m + k :: lo < script(s[r]).now <= lo + Times(k + 1, c.interval - 1 + d)
  {
    s := KeepaliveTurns(c, script, start, x + 1);
    TimesUp(k, c.interval - 1 + d);
    NotAfter(script, start, first, x);
    var i := IndexOf(s, first);
    TurnFacts(c, script, start, d, x);
    m := WindowOf(s, script, c.interval - 1 + d, script(x).now, k, i, lo);
  }

  // ---- Two ends ------------------------------------------------------------------------------

  lemma {:induction false} HeardSince(c: Config, script: nat -> Event, start: int, f: nat, j: nat)
    requires Monotone(script, start) && f < j && Hears(c, script(f).peer)
    ensures LastHeard(c, script, start, j) >= script(f).peer.at
    decreases j
  {
    if j - 1 > f {
      HeardSince(c, script, start, f, j - 1);
      if Hears(c, script(j - 1).peer) {
        assert Ordered(script, f) && Ordered(script, j - 1);
        Later(script, start, f + 1, j - 1);
      }
    }
  }

  lemma {:induction false} HeardSinceStart(c: Config, script: nat -> Event, start: int, j: nat)
    requires Monotone(script, start)
    ensures LastHeard(c, script, start, j) >= start
  {
    if j > 0 {
      HeardSinceStart(c, script, start, j - 1);
      assert Ordered(script, j - 1);
      Later(script, start, 0, j - 1);
    }
  }

  /**
   * What becomes of the keepalive of turn y: it may be lost; otherwise the far end receives its bytes,
   * no earlier than they were sent, and by any turn of which the clock reads the latency or more later.
   * The far end's clock reads `skew` more than the near end's.
   */
  ghost predicate Delivers(c: Config, near: NodeState, nearScript: nat -> Event, farScript: nat -> Event,
                           delivered: nat -> Option<nat>, skew: int, latency: nat, y: nat)
    requires ValidConfig(c) && Fits(c, near)
  {
    delivered(y).Some? ==>
      var peer := farScript(delivered(y).value).peer;
      && peer.Datagram?
      && peer.data in Keepalive(c, At(c, near, nearScript, y), nearScript(y).now).sent
      && nearScript(y).now + skew <= peer.at
      && forall j: nat | nearScript(y).now + skew + latency <= farScript(j).now :: delivered(y).value < j + 1
  }

  /** Of k + 1 consecutive keepalives from s[m] on, one is delivered. */
  predicate OneDelivered(s: seq<nat>, delivered: nat -> Option<nat>, m: nat, k: nat) {
    m + k < |s| ==> exists r | m <= r <= m + k :: delivered(s[r]).Some?
  }

  /** No more than k consecutive keepalives get lost, and the others arrive within the latency. */
  ghost predicate Channel(c: Config, near: NodeState, nearScript: nat -> Event, start: int,
                          farScript: nat -> Event, delivered: nat -> Option<nat>, skew: int, latency: nat, k: nat)
    requires ValidConfig(c) && Fits(c, near)
  {
    && (forall y: nat | Due(c, nearScript, start, y) ::
          Delivers(c, near, nearScript, farScript, delivered, skew, latency, y))
    && forall x: nat, m: nat :: OneDelivered(KeepaliveTurns(c, nearScript, start, x), delivered, m, k)
  }

  /** An arriving keepalive is accepted. */
  lemma KeepaliveHeard(c: Config, n: NodeState, now: int, peer: FromPeer)
    requires ValidConfig(c) && Fits(c, n) && peer.Datagram? && peer.data in Keepalive(c, n, now).sent
    ensures Hears(c, peer)
  {
    StampedPrefix(seq(c.bufferSize, _ => 0), CMD_KEEPALIVE, n.seqNo, HEADER_SIZE);
  }

  /** Some keepalive sent in the window before turn j's clock reading has been received before turn j. */
  lemma RecentlyHeard(c: Config, junk: seq<Byte>, start: int, nearScript: nat -> Event,
                      farScript: nat -> Event, farStart: int, delivered: nat -> Option<nat>,
                      d: nat, skew: int, latency: nat, k: nat, first: nat, x: nat, j: nat, lo: int)
    requires ValidConfig(c) && |junk| == c.bufferSize && c.interval >= 1 && d >= 1
    requires Monotone(nearScript, start) && Paced(nearScript, start, d)
    requires Monotone(farScript, farStart) && Paced(farScript, farStart, d)
    requires Channel(c, Start(junk, start), nearScript, start, farScript, delivered, skew, latency, k)
    requires Due(c, nearScript, start, first) && nearScript(first).now <= lo
    requires lo + Times(k + 1, c.interval - 1 + d) + skew + latency + d <= farScript(j).now
    requires nearScript(x).now >= lo + Times(k + 1, c.interval - 1 + d)
    requires j > 0
    ensures LastHeard(c, farScript, farStart, j) > lo + skew
  {
    var s, m := Window(c, nearScript, start, d, k, first, x, lo);
    assert OneDelivered(s, delivered, m, k);
    var r :| m <= r <= m + k && delivered(s[r]).Some?;
    var y, f := s[r], delivered(s[r]).value;
    assert Due(c, nearScript, start, y);
    assert Delivers(c, Start(junk, start), nearScript, farScript, delivered, skew, latency, y);
    KeepaliveHeard(c, At(c, Start(junk, start), nearScript, y), nearScript(y).now, farScript(f).peer);
    assert GapAtMost(farScript, d, j - 1);
    assert nearScript(y).now + skew + latency <= farScript(j - 1).now;
    HeardSince(c, farScript, farStart, f, j);
  }

  /**
   * Two ends whose loops turn at least every d seconds, over a channel with this latency that never
   * loses more than k keepalives in a row: if (k + 1) gaps, one more loop delay and the latency fit into
   * PEER_TIMEOUT, then a turn of the far end finds the near end alive.  It has to come within
   * PEER_TIMEOUT of the far end's start, or that much time after the near end's first keepalive.  The
   * clocks may differ by any constant.
   */
  lemma NoFalseTimeout(c: Config, junk: seq<Byte>, start: int, nearScript: nat -> Event,
                       farJunk: seq<Byte>, farStart: int, farScript: nat -> Event, delivered: nat -> Option<nat>,
                       d: nat, skew: int, latency: nat, k: nat, first: nat, x: nat, j: nat)
    requires ValidConfig(c) && |junk| == |farJunk| == c.bufferSize && c.interval >= 1 && d >= 1
    requires Monotone(nearScript, start) && Paced(nearScript, start, d)
    requires Monotone(farScript, farStart) && Paced(farScript, farStart, d)
    requires Channel(c, Start(junk, start), nearScript, start, farScript, delivered, skew, latency, k)
    requires (k + 1) * (c.interval - 1 + d) + d + latency <= c.timeout
    requires Due(c, nearScript, start, first)
    requires || farScript(j).now <= farStart + c.timeout
             || nearScript(first).now + skew + (k + 1) * (c.interval - 1 + d) + d + latency <= farScript(j).now
    requires nearScript(x).now + skew >= farScript(j).now
    ensures Checked(c, Start(farJunk, farStart), farScript, j).peerAlive
  {
    AliveIff(c, farJunk, farStart, farScript, j);
    TimesIsProduct(k + 1, c.interval - 1 + d);
    HeardSinceStart(c, farScript, farStart, j);
    if farScript(j).now > farStart + c.timeout {
      TimesUp(k + 1, c.interval - 1 + d);
      var lo := farScript(j).now - skew - d - latency - Times(k + 1, c.interval - 1 + d);
      RecentlyHeard(c, junk, start, nearScript, farScript, farStart, delivered,
                    d, skew, latency, k, first, x, j, lo);
    }
  }

  // ---- A pair of nodes that meets the assumptions --------------------------------------------

  /** The near end only idles, one turn a second. */
  function IdleScript(start: int): nat -> Event {
    (i: nat) => Event(start + i, TunIdle, PeerIdle)
  }

  /** The far end turns at the same times and receives each keepalive in the turn in which it is sent. */
  function HearingPeer(c: Config, n: NodeState, now: int): (peer: FromPeer)
    requires ValidConfig(c) && Fits(c, n)
    ensures peer.Datagram? ==> peer.at == now
  {
    var sent := Keepalive(c, n, now).sent;
    if sent == [] then PeerIdle else Datagram(sent[0], now)
  }

  function HearingEvent(c: Config, near: NodeState, start: int, i: nat): (e: Event)
    requires ValidConfig(c) && Fits(c, near)
    ensures e.now == start + i && (e.peer.Datagram? ==> e.peer.at == start + i)
  {
    Event(start + i, TunIdle, HearingPeer(c, At(c, near, IdleScript(start), i), start + i))
  }

  function HearingScript(c: Config, near: NodeState, start: int): nat -> Event
    requires ValidConfig(c) && Fits(c, near)
  {
    (i: nat) => HearingEvent(c, near, start, i)
  }

  function Immediately(): nat -> Option<nat> {
    (i: nat) => Some(i)
  }

  lemma HearingPeerHears(c: Config, n: NodeState, now: int)
    requires ValidConfig(c) && Fits(c, n) && now - n.lastSent >= c.interval
    ensures var peer := HearingPeer(c, n, now);
            peer.Datagram? && peer.at == now && peer.data in Keepalive(c, n, now).sent
  {
    assert |Keepalive(c, n, now).sent| == 1;
  }

  lemma HearingClock(c: Config, near: NodeState, start: int, i: nat)
    requires ValidConfig(c) && Fits(c, near)
    ensures var e := HearingScript(c, near, start)(i);
            e.now == start + i && (e.peer.Datagram? ==> e.peer.at == start + i)
  {
    assert HearingScript(c, near, start)(i) == HearingEvent(c, near, start, i);
  }

  lemma HearingPaced(c: Config, near: NodeState, start: int)
    requires ValidConfig(c) && Fits(c, near)
    ensures Monotone(HearingScript(c, near, start), start) && Paced(HearingScript(c, near, start), start, 1)
  {
    var far := HearingScript(c, near, start);
    HearingClock(c, near, start, 0);
    forall i: nat
      ensures Ordered(far, i) && GapAtMost(far, 1, i)
    {
      HearingClock(c, near, start, i);
      HearingClock(c, near, start, i + 1);
    }
  }

  lemma DueSends(c: Config, junk: seq<Byte>, start: int, y: nat)
    requires ValidConfig(c) && |junk| == c.bufferSize && Due(c, IdleScript(start), start, y)
    ensures Delivers(c, Start(junk, start), IdleScript(start), HearingScript(c, Start(junk, start), start),
                     Immediately(), 0, 0, y)
  {
    var near, far := Start(junk, start), HearingScript(c, Start(junk, start), start);
    Stamps(c, junk, start, IdleScript(start), y);
    HearingPeerHears(c, At(c, near, IdleScript(start), y), start + y);
    forall j: nat | start + y <= far(j).now
      ensures y < j + 1
    {
      HearingClock(c, near, start, j);
    }
  }

  lemma {:induction false} NoneDue(c: Config, start: int, i: nat)
    requires i <= c.interval
    ensures LastKeepalive(c, IdleScript(start), start, i) == start
  {
    if i > 0 {
      NoneDue(c, start, i - 1);
    }
  }

  lemma IdlePaced(start: int)
    ensures Monotone(IdleScript(start), start) && Paced(IdleScript(start), start, 1)
  {
    var near := IdleScript(start);
    forall i: nat
      ensures Ordered(near, i) && GapAtMost(near, 1, i)
    {
    }
  }

  /** Two ends and a channel that meet all assumptions of `NoFalseTimeout`. */
  lemma PairExists(c: Config, junk: seq<Byte>, start: int)
    returns (near: nat -> Event, far: nat -> Event, delivered: nat -> Option<nat>)
    requires ValidConfig(c) && |junk| == c.bufferSize
    ensures Monotone(near, start) && Paced(near, start, 1) && Monotone(far, start) && Paced(far, start, 1)
    ensures Channel(c, Start(junk, start), near, start, far, delivered, 0, 0, 0)
    ensures Due(c, near, start, c.interval) && forall i: nat :: near(i).now == far(i).now == start + i
  {
    near, far, delivered := IdleScript(start), HearingScript(c, Start(junk, start), start), Immediately();
    IdlePaced(start);
    HearingPaced(c, Start(junk, start), start);
    NoneDue(c, start, c.interval);
    forall y: nat | Due(c, near, start, y)
      ensures Delivers(c, Start(junk, start), near, far, delivered, 0, 0, y)
    {
      DueSends(c, junk, start, y);
    }
    forall x: nat, m: nat
      ensures OneDelivered(KeepaliveTurns(c, near, start, x), delivered, m, 0)
    {
      var s := KeepaliveTurns(c, near, start, x);
      assert m < |s| ==> delivered(s[m]).Some?;
    }
  }
}
