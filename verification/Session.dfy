/**
 * Master, workers and the two message queues of every connection as one asynchronous system.  Any
 * actor that can move may move next; nothing crashes and `select` waits for a result.  A step ends where
 * an actor next depends on another one: the master answers a request in the step that reads it.
 */
module Session {
  import opened Chunks
  import opened Scheduler

  datatype Msg = RequestMsg | TaskMsg(chunk: Chunk) | TerminateMsg | ResultMsg(chunk: Chunk)

  /**
   * Where a worker is in its loop; it has exited because it was told to, or because its connection was
   * closed.  `WorkerLost` is the error exit on an unexpected opcode.
   */
  datatype WorkerPc = Requesting | Awaiting | Computing(chunk: Chunk) | Exited(told: bool) | WorkerLost

  /** A message queue, oldest first. */
  datatype Fifo = Empty | Next(first: Msg, rest: Fifo) {
    function Push(m: Msg): Fifo {
      match this
      case Empty => Next(m, Empty)
      case Next(first, rest) => Next(first, rest.Push(m))
    }

    function Length(): nat {
      match this
      case Empty => 0
      case Next(_, rest) => 1 + rest.Length()
    }
  }

  function Just(m: Msg): Fifo {
    Next(m, Empty)
  }

  /** A worker, the messages it has sent (`up`) and the messages sent to it (`down`). */
  datatype Peer = Peer(pc: WorkerPc, up: Fifo, down: Fifo)

  /** Where the master is; `MasterLost` is an unexpected opcode read by the master. */
  datatype MasterPc =
    Serving(next: nat) | Selecting | Collecting(next: nat, ready: set<nat>) | Finished | Aborted | MasterLost

  datatype System = System(pc: MasterPc, pending: seq<Chunk>, slots: seq<Slot>, peers: seq<Peer>,
                           done: nat, height: nat)

  datatype Actor = TheMaster | Worker(id: nat)

  // ---- Steps ---------------------------------------------------------------------------------

  predicate Idle(w: Slot) {
    w.sock >= 0 && !w.active
  }

  function ReadySet(g: System): set<nat>
    requires |g.peers| == |g.slots|
  {
    set i | i in Watched(g.slots) && g.peers[i].up != Empty
  }

  predicate MasterEnabled(g: System)
    requires |g.peers| == |g.slots|
  {
    match g.pc
    case Serving(i) => i >= |g.slots| || !Idle(g.slots[i]) || g.peers[i].up != Empty
    case Selecting => Watched(g.slots) == {} || ReadySet(g) != {}
    case Collecting(_, _) => true
    case _ => false
  }

  /** Serve worker i, whose request is at the front of its queue. */
  function Serve(g: System, i: nat): System
    requires |g.peers| == |g.slots| && i < |g.slots| && g.peers[i].up != Empty
  {
    var peer := g.peers[i];
    if peer.up.first != RequestMsg then g.(pc := MasterLost)
    else if g.pending == [] then
      g.(pc := Serving(i + 1),
      slots := g.slots[i := g.slots[i].(sock := -1)],
      peers := g.peers[i := peer.(up := peer.up.rest, down := peer.down.Push(TerminateMsg))])
    else
      g.(pc := Serving(i + 1),
      pending := g.pending[1..],
      slots := g.slots[i := Slot(g.slots[i].sock, true, g.pending[0])],
      peers := g.peers[i := peer.(up := peer.up.rest, down := peer.down.Push(TaskMsg(g.pending[0])))])
  }

  /** Read the result of worker i. */
  function Take(g: System, i: nat, ready: set<nat>): System
    requires |g.peers| == |g.slots| && i < |g.slots|
  {
    var peer := g.peers[i];
    if peer.up == Empty || !peer.up.first.ResultMsg? then g.(pc := MasterLost)
    else
      g.(pc := Collecting(i + 1, ready),
      slots := g.slots[i := g.slots[i].(active := false)],
      peers := g.peers[i := peer.(up := peer.up.rest)],
      done := g.done + peer.up.first.chunk.rows)
  }

  function CloseAll(slots: seq<Slot>): (r: seq<Slot>)
    ensures |r| == |slots|
  {
    seq(|slots|, i requires 0 <= i < |slots| => slots[i].(sock := -1))
  }

  function MasterStep(g: System): System
    requires |g.peers| == |g.slots| && MasterEnabled(g)
  {
    match g.pc
    case Serving(i) =>
      if i >= |g.slots| then g.(pc := Selecting)
      else if !Idle(g.slots[i]) then g.(pc := Serving(i + 1))
      else Serve(g, i)
    case Selecting =>
      if Watched(g.slots) == {} then g.(pc := Aborted) else g.(pc := Collecting(0, ReadySet(g)))
    case Collecting(i, ready) =>
      if i >= |g.slots| then
        if g.done >= g.height then g.(pc := Finished, slots := CloseAll(g.slots)) else g.(pc := Serving(0))
      else if g.slots[i].sock >= 0 && g.slots[i].active && i in ready then Take(g, i, ready)
      else g.(pc := Collecting(i + 1, ready))
    case _ => g
  }

  /** A worker is blocked only while it waits on an open connection with nothing in it. */
  predicate WorkerEnabled(slot: Slot, peer: Peer) {
    match peer.pc
    case Awaiting => peer.down != Empty || slot.sock < 0
    case Exited(_) => false
    case WorkerLost => false
    case _ => true
  }

  function WorkerStep(peer: Peer): Peer {
    match peer.pc
    case Requesting => peer.(pc := Awaiting, up := peer.up.Push(RequestMsg))
    case Awaiting =>
      if peer.down == Empty then peer.(pc := Exited(false))
      else (
             match peer.down.first
             case TaskMsg(c) => peer.(pc := Computing(c), down := peer.down.rest)
             case TerminateMsg => peer.(pc := Exited(true), down := peer.down.rest)
             case _ => peer.(pc := WorkerLost)
           )
    case Computing(c) => peer.(pc := Requesting, up := peer.up.Push(ResultMsg(c)))
    case _ => peer
  }

  predicate Enabled(g: System, a: Actor)
    requires |g.peers| == |g.slots|
  {
    match a
    case TheMaster => MasterEnabled(g)
    case Worker(i) => i < |g.slots| && WorkerEnabled(g.slots[i], g.peers[i])
  }

  function Step(g: System, a: Actor): System
    requires |g.peers| == |g.slots| && Enabled(g, a)
  {
    match a
    case TheMaster => MasterStep(g)
    case Worker(i) => g.(peers := g.peers[i := WorkerStep(g.peers[i])])
  }

  // ---- Invariant -----------------------------------------------------------------------------

  /** The only contents a connection can have, by what the master knows about the worker. */
  predicate LinkOk(w: Slot, l: Peer) {
    if w.sock >= 0 && w.active then
      || l == Peer(Awaiting, Empty, Just(TaskMsg(w.chunk)))
      || l == Peer(Computing(w.chunk), Empty, Empty)
      || l == Peer(Requesting, Just(ResultMsg(w.chunk)), Empty)
      || l == Peer(Awaiting, Next(ResultMsg(w.chunk), Just(RequestMsg)), Empty)
    else if w.sock >= 0 then
      || l == Peer(Requesting, Empty, Empty)
      || l == Peer(Awaiting, Just(RequestMsg), Empty)
    else
      && !w.active
      && (|| l == Peer(Awaiting, Empty, Just(TerminateMsg))
          || l == Peer(Requesting, Empty, Empty)
          || l == Peer(Awaiting, Just(RequestMsg), Empty)
          || l == Peer(Exited(true), Empty, Empty)
          || l == Peer(Exited(false), Empty, Empty)
          || l == Peer(Exited(false), Just(RequestMsg), Empty))
  }

  predicate Positive(cs: seq<Chunk>) {
    forall k | 0 <= k < |cs| :: cs[k].rows > 0
  }

  ghost predicate SomeoneOpen(slots: seq<Slot>) {
    exists i | 0 <= i < |slots| :: slots[i].sock >= 0
  }

  ghost predicate PcOk(g: System) {
    match g.pc
    case Serving(i) =>
      && i <= |g.slots| && g.done < g.height && SomeoneOpen(g.slots)
      && forall j | 0 <= j < i :: !Idle(g.slots[j])
    case Selecting =>
      && g.done < g.height && SomeoneOpen(g.slots)
      && forall j | 0 <= j < |g.slots| :: !Idle(g.slots[j])
    case Collecting(i, ready) =>
      && i <= |g.slots| && SomeoneOpen(g.slots) && ready != {}
      && |g.peers| == |g.slots| && (forall j | j in ready :: j < |g.slots|)
      && (forall j | j in ready && i <= j :: g.slots[j].sock >= 0 && g.slots[j].active && g.peers[j].up != Empty)
    case Finished =>
      && g.done == g.height
      && forall j | 0 <= j < |g.slots| :: g.slots[j].sock < 0
    case Aborted => false
    case MasterLost => false
  }

  ghost predicate SessionInv(g: System) {
    && |g.peers| == |g.slots|
    && (forall i | 0 <= i < |g.slots| :: LinkOk(g.slots[i], g.peers[i]))
    && Positive(g.pending)
    && Positive(Flight(g.slots))
    && g.done + Sum(RowsOf(), g.pending) + Sum(RowsOf(), Flight(g.slots)) == g.height
    && PcOk(g)
  }

  // ---- Accounts ------------------------------------------------------------------------------

  lemma SumSplit(a: seq<Chunk>, c: Chunk, b: seq<Chunk>)
    ensures Sum(RowsOf(), a + [c] + b) == Sum(RowsOf(), a + [] + b) + c.rows
    ensures Positive(a + [c] + b) <==> Positive(a + [] + b) && c.rows > 0
  {
    assert a + [] + b == a + b;
    SumConcat(RowsOf(), a + [c], b);
    SumConcat(RowsOf(), a, [c]);
    SumConcat(RowsOf(), a, b);
    assert Sum(RowsOf(), [c]) == c.rows;
    assert (a + [c] + b)[|a|] == c;
    assert forall k | 0 <= k < |a + b| :: (a + b)[k] == (a + [c] + b)[if k < |a| then k else k + 1];
    assert forall k | 0 <= k < |a + [c] + b| && k != |a| ::
        (a + [c] + b)[k] == (a + b)[if k < |a| then k else k - 1];
  }

  /** A slot that gets a chunk, or gives it back, changes the outstanding rows by that chunk. */
  lemma FlightRows(ws: seq<Slot>, i: nat, idle: Slot, busy: Slot)
    requires i < |ws| && !idle.active && busy.active
    ensures Sum(RowsOf(), Flight(ws[i := busy])) == Sum(RowsOf(), Flight(ws[i := idle])) + busy.chunk.rows
    ensures Positive(Flight(ws[i := busy])) <==> Positive(Flight(ws[i := idle])) && busy.chunk.rows > 0
  {
    FlightParts(ws, i, idle);
    FlightParts(ws, i, busy);
    SumSplit(Flight(ws[..i]), busy.chunk, Flight(ws[i + 1..]));
  }

  lemma {:induction false} SomeRows(cs: seq<Chunk>)
    requires Positive(cs) && cs != []
    ensures Sum(RowsOf(), cs) > 0
  {
    assert cs[0].rows > 0;
  }

  /** While rows are missing and nothing is waiting, some worker is busy. */
  lemma SomeoneActive(g: System)
    requires SessionInv(g) && g.done < g.height && g.pending == []
    ensures exists j | 0 <= j < |g.slots| :: g.slots[j].active
  {
    if forall j | 0 <= j < |g.slots| :: !g.slots[j].active {
      NothingHeld(g.slots);
    }
  }

  // ---- Preservation --------------------------------------------------------------------------

  lemma ServeKeeps(g: System, i: nat)
    requires SessionInv(g) && g.pc == Serving(i) && i < |g.slots| && Idle(g.slots[i]) && g.peers[i].up != Empty
    ensures SessionInv(Serve(g, i))
  {
    var t := Serve(g, i);
    var w := g.slots[i];
    assert LinkOk(w, g.peers[i]);
    assert g.slots[i := w] == g.slots;
    if g.pending == [] {
      FlightIdle(g.slots, i, w, w.(sock := -1));
      SomeoneActive(g);
      var j :| 0 <= j < |g.slots| && g.slots[j].active;
      assert LinkOk(g.slots[j], g.peers[j]);
      assert t.slots[j].sock >= 0;
    } else {
      var c := g.pending[0];
      FlightRows(g.slots, i, w, Slot(w.sock, true, c));
      assert t.slots[i].sock >= 0;
    }
  }

  lemma TakeKeeps(g: System, i: nat, ready: set<nat>)
    requires SessionInv(g) && g.pc == Collecting(i, ready) && i < |g.slots| && i in ready
    ensures SessionInv(Take(g, i, ready))
  {
    var t := Take(g, i, ready);
    var w := g.slots[i];
    assert LinkOk(w, g.peers[i]);
    assert g.slots[i := w] == g.slots;
    FlightRows(g.slots, i, w.(active := false), w);
    assert t.slots[i].sock >= 0;
  }

  /** Once all rows are counted, no worker holds a chunk and none is waiting. */
  lemma AllCounted(g: System)
    requires SessionInv(g) && g.done >= g.height
    ensures g.done == g.height && g.pending == []
    ensures forall j | 0 <= j < |g.slots| :: !g.slots[j].active
  {
    if Flight(g.slots) != [] {
      SomeRows(Flight(g.slots));
    }
    if g.pending != [] {
      SomeRows(g.pending);
    }
    forall j | 0 <= j < |g.slots|
      ensures !g.slots[j].active
    {
      if g.slots[j].active {
        FlightMember(g.slots, j);
      }
    }
  }

  lemma ClosedLink(w: Slot, l: Peer)
    requires LinkOk(w, l) && !w.active
    ensures LinkOk(w.(sock := -1), l)
  {
  }

  lemma FinishKeeps(g: System, ready: set<nat>)
    requires SessionInv(g) && g.pc == Collecting(|g.slots|, ready) && g.done >= g.height
    ensures SessionInv(g.(pc := Finished, slots := CloseAll(g.slots)))
  {
    AllCounted(g);
    forall j | 0 <= j < |g.slots|
      ensures LinkOk(CloseAll(g.slots)[j], g.peers[j])
    {
      ClosedLink(g.slots[j], g.peers[j]);
    }
    NothingHeld(CloseAll(g.slots));
  }

  /** With every connected worker busy there is somebody to watch. */
  lemma SelectKeeps(g: System)
    requires SessionInv(g) && g.pc == Selecting && MasterEnabled(g)
    ensures Watched(g.slots) != {} && SessionInv(MasterStep(g))
  {
    var j :| 0 <= j < |g.slots| && g.slots[j].sock >= 0;
    assert j in Watched(g.slots);
  }

  /** The master passes over a worker it has nothing to say to. */
  lemma SkipServing(g: System, i: nat)
    requires SessionInv(g) && g.pc == Serving(i) && (i < |g.slots| ==> !Idle(g.slots[i]))
    ensures SessionInv(g.(pc := if i < |g.slots| then Serving(i + 1) else Selecting))
  {
  }

  lemma SkipCollecting(g: System, i: nat, ready: set<nat>)
    requires SessionInv(g) && g.pc == Collecting(i, ready)
    ensures i < |g.slots| && i !in ready ==> SessionInv(g.(pc := Collecting(i + 1, ready)))
    ensures i >= |g.slots| && g.done < g.height ==> SessionInv(g.(pc := Serving(0)))
  {
  }

  lemma MasterStepKeeps(g: System)
    requires SessionInv(g) && MasterEnabled(g)
    ensures SessionInv(MasterStep(g))
  {
    match g.pc
    case Serving(i) =>
      if i < |g.slots| && Idle(g.slots[i]) {
        ServeKeeps(g, i);
      } else {
        SkipServing(g, i);
      }
    case Selecting => SelectKeeps(g);
    case Collecting(i, ready) =>
      if i >= |g.slots| && g.done >= g.height {
        FinishKeeps(g, ready);
      } else if i < |g.slots| && g.slots[i].sock >= 0 && g.slots[i].active && i in ready {
        TakeKeeps(g, i, ready);
      } else {
        SkipCollecting(g, i, ready);
      }
    case _ =>
  }

  lemma WorkerLinkKeeps(w: Slot, l: Peer)
    requires LinkOk(w, l) && WorkerEnabled(w, l)
    ensures LinkOk(w, WorkerStep(l)) && (l.up != Empty ==> WorkerStep(l).up != Empty)
  {
    if l.up.Next? {
      assert l.up.Push(RequestMsg) == Next(l.up.first, l.up.rest.Push(RequestMsg));
    }
  }

  /** No actor ever reads an unexpected opcode, and the master never gives up. */
  lemma StepKeeps(g: System, a: Actor)
    requires SessionInv(g) && Enabled(g, a)
    ensures SessionInv(Step(g, a))
  {
    match a
    case TheMaster => MasterStepKeeps(g);
    case Worker(i) =>
      assert LinkOk(g.slots[i], g.peers[i]);
      WorkerLinkKeeps(g.slots[i], g.peers[i]);
  }

  /** What the invariant says about the channels. */
  lemma ChannelBounds(g: System, i: nat)
    requires SessionInv(g) && i < |g.slots|
    ensures g.peers[i].down.Length() <= 1
    ensures var up, result := g.peers[i].up, ResultMsg(g.slots[i].chunk);
            up == Empty || up == Just(RequestMsg) || up == Just(result) || up == Next(result, Just(RequestMsg))
    ensures g.peers[i].pc != WorkerLost && g.pc != MasterLost
  {
    assert LinkOk(g.slots[i], g.peers[i]);
  }

  // ---- Progress ------------------------------------------------------------------------------

  /** A worker whose queue to the master is empty, while the master has not closed it, can move. */
  lemma SilentWorkerMoves(w: Slot, l: Peer)
    requires LinkOk(w, l) && w.sock >= 0 && l.up == Empty
    ensures WorkerEnabled(w, l)
  {
  }

  /** No reachable unfinished state is stuck: the master or some worker can move. */
  lemma NoDeadlock(g: System)
    requires SessionInv(g) && g.pc != Finished
    ensures exists a :: Enabled(g, a)
  {
    if MasterEnabled(g) {
      assert Enabled(g, TheMaster);
    } else if g.pc.Serving? {
      var i := g.pc.next;
      SilentWorkerMoves(g.slots[i], g.peers[i]);
      assert Enabled(g, Worker(i));
    } else {
      var j :| j in Watched(g.slots);
      assert j !in ReadySet(g);
      SilentWorkerMoves(g.slots[j], g.peers[j]);
      assert Enabled(g, Worker(j));
    }
  }

  /** How many worker-visible steps a connection still has before it must exit. */
  function Energy(w: Slot, l: Peer): nat {
    match l.pc
    case Requesting => if w.active then 4 else 3
    case Awaiting =>
      if w.active then (if l.up == Empty then 6 else 3)
      else if l.up == Empty then 1 else 2
    case Computing(_) => 5
    case _ => 0
  }

  function TotalEnergy(ws: seq<Slot>, ls: seq<Peer>): nat
    requires |ws| == |ls|
  {
    if ws == [] then 0 else Energy(ws[0], ls[0]) + TotalEnergy(ws[1..], ls[1..])
  }

  lemma {:induction false} EnergyUpdate(ws: seq<Slot>, ls: seq<Peer>, i: nat, w: Slot, l: Peer)
    requires |ws| == |ls| && i < |ws|
    ensures TotalEnergy(ws[i := w], ls[i := l]) + Energy(ws[i], ls[i]) == TotalEnergy(ws, ls) + Energy(w, l)
  {
    if i == 0 {
      assert ws[i := w][1..] == ws[1..] && ls[i := l][1..] == ls[1..];
    } else {
      assert ws[i := w][1..] == ws[1..][i - 1 := w] && ls[i := l][1..] == ls[1..][i - 1 := l];
      EnergyUpdate(ws[1..], ls[1..], i - 1, w, l);
    }
  }

  /** Closing sockets alone gives nobody more to do. */
  lemma {:induction false} EnergyClose(ws: seq<Slot>, ls: seq<Peer>)
    requires |ws| == |ls|
    ensures TotalEnergy(CloseAll(ws), ls) == TotalEnergy(ws, ls)
  {
    if ws != [] {
      assert CloseAll(ws)[1..] == CloseAll(ws[1..]);
      EnergyClose(ws[1..], ls[1..]);
    }
  }

  function Fuel(g: System): nat
    requires |g.peers| == |g.slots|
  {
    5 * |g.pending| + TotalEnergy(g.slots, g.peers)
  }

  /** Scan steps left in the master's round, with a credit for the next round once a result was read. */
  ghost function ScanLeft(g: System): int {
    var n := |g.slots|;
    match g.pc
    case Serving(i) => 2 * n + 3 - i
    case Selecting => n + 2
    case Collecting(i, ready) => n + 1 - i + if exists j | j in ready :: j < i then 2 * n + 3 else 0
    case _ => 0
  }

  function Scale(k: nat, amount: nat): nat {
    k * amount
  }

  /** Bounds the number of steps all actors together can still take. */
  ghost function Remaining(g: System): int
    requires |g.peers| == |g.slots|
  {
    Scale(2 * |g.slots| + 4, Fuel(g)) + ScanLeft(g)
  }

  lemma RemainingNonNegative(g: System)
    requires |g.peers| == |g.slots| && PcOk(g)
    ensures Remaining(g) >= 0
  {
  }

  /** One unit of fuel pays for a whole round of scanning. */
  lemma FuelDrop(k: nat, before: nat, after: nat)
    requires after < before
    ensures Scale(k, after) + k <= Scale(k, before)
  {
    MulStep(k, after, before - after - 1);
  }

  lemma MulStep(k: nat, a: nat, rest: nat)
    ensures k * (a + 1 + rest) == k * a + k + k * rest
  {
  }

  lemma LinkSpends(w: Slot, l: Peer)
    requires LinkOk(w, l) && WorkerEnabled(w, l)
    ensures Energy(w, WorkerStep(l)) < Energy(w, l)
  {
  }

  lemma WorkerStepSpends(g: System, i: nat)
    requires SessionInv(g) && Enabled(g, Worker(i))
    ensures Fuel(Step(g, Worker(i))) < Fuel(g) && ScanLeft(Step(g, Worker(i))) == ScanLeft(g)
  {
    LinkSpends(g.slots[i], g.peers[i]);
    EnergyUpdate(g.slots, g.peers, i, g.slots[i], WorkerStep(g.peers[i]));
    assert g.slots[i := g.slots[i]] == g.slots;
  }

  lemma ServeSpends(g: System, i: nat)
    requires SessionInv(g) && g.pc == Serving(i) && i < |g.slots| && Idle(g.slots[i]) && g.peers[i].up != Empty
    ensures Fuel(Serve(g, i)) < Fuel(g) && ScanLeft(Serve(g, i)) < ScanLeft(g)
  {
    assert LinkOk(g.slots[i], g.peers[i]);
    var t := Serve(g, i);
    EnergyUpdate(g.slots, g.peers, i, t.slots[i], t.peers[i]);
  }

  lemma TakeSpends(g: System, i: nat, ready: set<nat>)
    requires SessionInv(g) && g.pc == Collecting(i, ready) && i < |g.slots| && i in ready
    ensures Fuel(Take(g, i, ready)) < Fuel(g) && ScanLeft(Take(g, i, ready)) <= ScanLeft(g) + 2 * |g.slots| + 2
  {
    assert LinkOk(g.slots[i], g.peers[i]);
    var t := Take(g, i, ready);
    EnergyUpdate(g.slots, g.peers, i, t.slots[i], t.peers[i]);
  }

  /** The scan steps of the master that touch no connection. */
  lemma ScanSpends(g: System)
    requires SessionInv(g) && MasterEnabled(g)
    requires Fuel(MasterStep(g)) == Fuel(g) && |MasterStep(g).slots| == |g.slots|
    requires g.pc.Collecting? && g.pc.next < |g.slots| ==> g.pc.next !in g.pc.ready
    requires MasterStep(g).pc != Aborted && MasterStep(g).pc != MasterLost
    requires g.pc.Serving? && g.pc.next < |g.slots| ==> !Idle(g.slots[g.pc.next])
    ensures ScanLeft(MasterStep(g)) < ScanLeft(g)
  {
    if g.pc.Collecting? && g.pc.next >= |g.slots| {
      var j :| j in g.pc.ready;
      assert j < |g.slots|;
    }
  }

  lemma MasterStepSpends(g: System)
    requires SessionInv(g) && MasterEnabled(g)
    ensures var t := MasterStep(g);
            || (Fuel(t) < Fuel(g) && ScanLeft(t) <= ScanLeft(g) + 2 * |g.slots| + 2)
            || (Fuel(t) == Fuel(g) && ScanLeft(t) < ScanLeft(g))
  {
    match g.pc
    case Serving(i) =>
      if i < |g.slots| && Idle(g.slots[i]) {
        ServeSpends(g, i);
      } else {
        ScanSpends(g);
      }
    case Selecting =>
      SelectKeeps(g);
      ScanSpends(g);
    case Collecting(i, ready) =>
      if i < |g.slots| && i in ready {
        TakeSpends(g, i, ready);
      } else {
        EnergyClose(g.slots, g.peers);
        ScanSpends(g);
      }
    case _ =>
  }

  lemma SpendFuel(k: nat, fuel: nat, fuelAfter: nat, scan: int, scanAfter: int)
    requires (fuelAfter < fuel && scanAfter < scan + k) || (fuelAfter == fuel && scanAfter < scan)
    ensures Scale(k, fuelAfter) + scanAfter < Scale(k, fuel) + scan
  {
    if fuelAfter < fuel {
      FuelDrop(k, fuel, fuelAfter);
    }
  }

  lemma StepSizes(g: System, a: Actor)
    requires |g.peers| == |g.slots| && Enabled(g, a)
    ensures |Step(g, a).slots| == |g.slots| && |Step(g, a).peers| == |g.peers| && Step(g, a).height == g.height
  {
  }

  lemma StepSpends(g: System, a: Actor)
    requires SessionInv(g) && Enabled(g, a)
    ensures |Step(g, a).peers| == |Step(g, a).slots|
    ensures Remaining(Step(g, a)) < Remaining(g)
  {
    StepSizes(g, a);
    match a {
      case TheMaster => MasterStepSpends(g);
      case Worker(i) => WorkerStepSpends(g, i);
    }
    SpendFuel(2 * |g.slots| + 4, Fuel(g), Fuel(Step(g, a)), ScanLeft(g), ScanLeft(Step(g, a)));
  }

  // ---- Schedules -----------------------------------------------------------------------------

  /** Each actor of the list can move when its turn comes. */
  ghost predicate Schedule(g: System, turns: seq<Actor>)
    requires SessionInv(g)
    decreases |turns|
  {
    turns == [] || (Enabled(g, turns[0]) && (StepKeeps(g, turns[0]); Schedule(Step(g, turns[0]), turns[1..])))
  }

  ghost function After(g: System, turns: seq<Actor>): (t: System)
    requires SessionInv(g) && Schedule(g, turns)
    ensures SessionInv(t)
    decreases |turns|
  {
    if turns == [] then g
    else
      StepKeeps(g, turns[0]);
      After(Step(g, turns[0]), turns[1..])
  }

  /** However the actors interleave, a schedule cannot be longer than the initial measure. */
  lemma {:induction false} SchedulesEnd(g: System, turns: seq<Actor>)
    requires SessionInv(g) && Schedule(g, turns)
    ensures |turns| <= Remaining(g)
    decreases |turns|
  {
    if turns == [] {
      RemainingNonNegative(g);
    } else {
      var next, rest := Step(g, turns[0]), turns[1..];
      StepKeeps(g, turns[0]);
      SchedulesEnd(next, rest);
      StepSpends(g, turns[0]);
    }
  }

  /** A schedule that cannot be continued has finished the image, and every worker has exited. */
  lemma CompleteSchedule(g: System, turns: seq<Actor>)
    requires SessionInv(g) && Schedule(g, turns)
    requires forall a :: !Enabled(After(g, turns), a)
    ensures After(g, turns).pc == Finished && After(g, turns).done == After(g, turns).height
    ensures forall i | 0 <= i < |After(g, turns).peers| :: After(g, turns).peers[i].pc.Exited?
  {
    var t := After(g, turns);
    if t.pc != Finished {
      NoDeadlock(t);
    }
    forall i | 0 <= i < |t.peers|
      ensures t.peers[i].pc.Exited?
    {
      assert LinkOk(t.slots[i], t.peers[i]);
      assert !Enabled(t, Worker(i));
    }
  }

  lemma {:induction false} SameHeight(g: System, turns: seq<Actor>)
    requires SessionInv(g) && Schedule(g, turns)
    ensures After(g, turns).height == g.height
    decreases |turns|
  {
    if turns != [] {
      var next := Step(g, turns[0]);
      StepKeeps(g, turns[0]);
      StepSizes(g, turns[0]);
      assert After(g, turns) == After(next, turns[1..]);
      SameHeight(next, turns[1..]);
    }
  }

  /** Nobody has read an unexpected opcode. */
  lemma NobodyLost(g: System)
    requires SessionInv(g)
    ensures g.pc != MasterLost && forall i | 0 <= i < |g.peers| :: g.peers[i].pc != WorkerLost
  {
    forall i | 0 <= i < |g.peers|
      ensures g.peers[i].pc != WorkerLost
    {
      assert LinkOk(g.slots[i], g.peers[i]);
    }
  }

  /** The state after the accept loop; an empty image is finished at once. */
  function Begin(height: nat, size: nat, socks: seq<int>): System
    requires size > 0
  {
    var slots := seq(|socks|, i requires 0 <= i < |socks| => Slot(socks[i], false, Chunk(0, 0)));
    var peers := seq(|socks|, i requires 0 <= i < |socks| =>
                     if socks[i] >= 0 then Peer(Requesting, Empty, Empty) else Peer(Exited(false), Empty, Empty));
    System(Serving(0), Split(0, height, size), slots, peers, 0, height)
  }

  lemma BeginInv(height: nat, size: nat, socks: seq<int>)
    requires size > 0 && height > 0
    requires exists i :: 0 <= i < |socks| && socks[i] >= 0
    ensures SessionInv(Begin(height, size, socks))
  {
    var g := Begin(height, size, socks);
    SplitBounds(0, height, size);
    SplitRows(0, height, size);
    NothingHeld(g.slots);
    var i :| 0 <= i < |socks| && socks[i] >= 0;
    assert g.slots[i].sock >= 0;
  }

  /**
   * Every crash-free run of the whole system, however its actors interleave, is bounded in length and can
   * always go on until the image is complete and every worker has left.
   */
  lemma CrashFreeRun(height: nat, size: nat, socks: seq<int>, turns: seq<Actor>)
    requires size > 0 && height > 0
    requires exists i :: 0 <= i < |socks| && socks[i] >= 0
    ensures SessionInv(Begin(height, size, socks))
    ensures Schedule(Begin(height, size, socks), turns) ==>
              var t := After(Begin(height, size, socks), turns);
              && |turns| <= Remaining(Begin(height, size, socks))
              && t.pc != MasterLost && (forall i | 0 <= i < |t.peers| :: t.peers[i].pc != WorkerLost)
              && ((exists a :: Enabled(t, a))
                  || (t.pc == Finished && t.done == height && forall i | 0 <= i < |t.peers| :: t.peers[i].pc.Exited?))
  {
    var g := Begin(height, size, socks);
    BeginInv(height, size, socks);
    if Schedule(g, turns) {
      SchedulesEnd(g, turns);
      SameHeight(g, turns);
      var t := After(g, turns);
      NobodyLost(t);
      if forall a :: !Enabled(t, a) {
        CompleteSchedule(g, turns);
      }
    }
  }

  /** From every reachable state some interleaving finishes the image. */
  lemma {:induction false} CanFinish(g: System) returns (turns: seq<Actor>)
    requires SessionInv(g)
    ensures Schedule(g, turns) && After(g, turns).pc == Finished
    decreases Remaining(g)
  {
    if g.pc == Finished {
      turns := [];
    } else {
      NoDeadlock(g);
      var a :| Enabled(g, a);
      StepKeeps(g, a);
      StepSpends(g, a);
      RemainingNonNegative(Step(g, a));
      var rest := CanFinish(Step(g, a));
      turns := [a] + rest;
      assert turns[1..] == rest;
    }
  }
}
