/**
 * The master's scheduler as functions on its state.  The class `Master` is proved to compute these
 * functions; `Runs` proves theorems about whole runs of them.
 */
module Scheduler {
  import opened Bytes
  import opened Wire
  import opened Render
  import opened Chunks

  /** Image, chunk size, number of worker slots, and the row function every program shares. */
  datatype Params = Params(view: View, size: nat, slots: nat, paint: Painter)

  /** The sizes the C code can hold in `int` without overflow. */
  ghost predicate ValidParams(p: Params) {
    && p.size > 0
    && p.view.height + p.size <= 0x8000_0000
    && p.view.width < 0x8000_0000
    && p.view.width * p.view.height < 0x8000_0000
    && FillsRows(p.paint)
  }

  /** A worker record; `sock` is negative when the slot is unused or the worker is gone. */
  datatype Slot = Slot(sock: int, active: bool, chunk: Chunk)

  datatype Selected = SelectError | TimedOut | Ready(socks: set<nat>)

  /**
   * The outside world.  Each call's outcome is an arbitrary function of the loop round and the
   * worker: what `accept` returns, whether a request arrives, whether a chunk is sent, what `select`
   * reports about the watched workers, and which bytes arrive before the connection breaks when a
   * worker that was sent the given task bytes is read.
   */
  datatype Env = Env(accept: nat -> int,
                     request: (nat, nat) -> bool,
                     send: (nat, nat) -> bool,
                     select: (nat, set<nat>) -> Selected,
                     reply: (nat, nat, seq<Byte>) -> seq<Byte>)

  /** A positive `select` marks at least one descriptor, and only watched ones. */
  ghost predicate SelectObeys(env: Env) {
    forall round: nat, watched: set<nat> ::
      env.select(round, watched).Ready? ==>
        env.select(round, watched).socks != {} && env.select(round, watched).socks <= watched
  }

  /**
   * The master's variables.  `finished` lists the chunks whose result was accepted and `copied` the
   * row ranges written to the image, as the results named them; both only record history.
   */
  datatype State = State(queue: seq<Chunk>, head: nat, workers: seq<Slot>, image: seq<Byte>, completed: U32,
                         finished: seq<Chunk>, copied: seq<Chunk>)

  function AllChunks(p: Params): seq<Chunk>
    requires p.size > 0
  {
    Split(0, p.view.height, p.size)
  }

  // ---- Bookkeeping -------------------------------------------------------------------------

  function Pending(s: State): seq<Chunk>
    requires s.head <= |s.queue|
  {
    s.queue[s.head..]
  }

  function Held(w: Slot): seq<Chunk> {
    if w.active then [w.chunk] else []
  }

  /** The chunks out at workers. */
  function Flight(ws: seq<Slot>): seq<Chunk> {
    if ws == [] then [] else Held(ws[0]) + Flight(ws[1..])
  }

  function Live(ws: seq<Slot>): nat {
    if ws == [] then 0 else (if ws[0].sock >= 0 then 1 else 0) + Live(ws[1..])
  }

  /** Where every chunk is: waiting, out, or done. */
  function Books(s: State): multiset<Chunk>
    requires s.head <= |s.queue|
  {
    multiset(Pending(s)) + multiset(Flight(s.workers)) + multiset(s.finished)
  }

  /**
   * Conservation: waiting, outstanding and finished chunks together are exactly the chunks the image
   * was cut into.
   */
  ghost predicate Inv(p: Params, s: State) {
    && ValidParams(p)
    && |s.workers| == p.slots
    && |s.image| == p.view.width * p.view.height
    && |s.queue| == |AllChunks(p)|
    && s.head <= |s.queue|
    && (forall i | 0 <= i < p.slots :: s.workers[i].active ==> s.workers[i].sock >= 0)
    && Books(s) == multiset(AllChunks(p))
  }

  /** What bounds the number of rounds. */
  function Measure(s: State): nat
    requires s.head <= |s.queue|
  {
    |Pending(s)| + |Flight(s.workers)| + Live(s.workers)
  }

  lemma {:induction false} FlightConcat(a: seq<Slot>, b: seq<Slot>)
    ensures Flight(a + b) == Flight(a) + Flight(b) && Live(a + b) == Live(a) + Live(b)
  {
    if a == [] {
      assert a + b == b;
    } else {
      assert (a + b)[1..] == a[1..] + b;
      FlightConcat(a[1..], b);
    }
  }

  /** A record is the only place where replacing it can change what is out. */
  lemma FlightParts(ws: seq<Slot>, i: nat, w: Slot)
    requires i < |ws|
    ensures Flight(ws[i := w]) == Flight(ws[..i]) + Held(w) + Flight(ws[i + 1..])
    ensures Live(ws[i := w]) == Live(ws[..i]) + (if w.sock >= 0 then 1 else 0) + Live(ws[i + 1..])
  {
    var a, b := ws[..i], ws[i + 1..];
    assert ws[i := w] == a + ([w] + b);
    assert ([w] + b)[1..] == b;
    FlightConcat(a, [w] + b);
  }

  lemma InsertBetween(a: seq<Chunk>, c: Chunk, b: seq<Chunk>)
    ensures multiset(a + [c] + b) == multiset(a + [] + b) + multiset{c}
  {
    assert a + [] + b == a + b;
  }

  /** The record of worker i goes from idle to holding a chunk, or back. */
  lemma FlightToggle(ws: seq<Slot>, i: nat, idle: Slot, busy: Slot)
    requires i < |ws| && !idle.active && busy.active
    ensures multiset(Flight(ws[i := busy])) == multiset(Flight(ws[i := idle])) + multiset{busy.chunk}
    ensures |Flight(ws[i := busy])| == |Flight(ws[i := idle])| + 1
    ensures idle.sock >= 0 && busy.sock >= 0 ==> Live(ws[i := busy]) == Live(ws[i := idle])
    ensures idle.sock < 0 && busy.sock >= 0 ==> Live(ws[i := busy]) == Live(ws[i := idle]) + 1
  {
    FlightParts(ws, i, idle);
    FlightParts(ws, i, busy);
    InsertBetween(Flight(ws[..i]), busy.chunk, Flight(ws[i + 1..]));
  }

  lemma FlightIdle(ws: seq<Slot>, i: nat, a: Slot, b: Slot)
    requires i < |ws| && !a.active && !b.active
    ensures Flight(ws[i := a]) == Flight(ws[i := b])
    ensures a.sock >= 0 > b.sock ==> Live(ws[i := a]) == Live(ws[i := b]) + 1
  {
    FlightParts(ws, i, a);
    FlightParts(ws, i, b);
  }

  /** A chunk that leaves the head of the waiting list for a worker, or comes back, changes no total. */
  lemma SentCounts(c: Chunk, waiting: seq<Chunk>, without: seq<Chunk>, with: seq<Chunk>, done: seq<Chunk>)
    requires multiset(with) == multiset(without) + multiset{c}
    ensures multiset([c] + waiting) + multiset(without) + multiset(done)
            == multiset(waiting) + multiset(with) + multiset(done)
  {
    assert multiset([c] + waiting) == multiset{c} + multiset(waiting);
  }

  /** Nor does a chunk that goes from a worker to the finished ones. */
  lemma DoneCounts(c: Chunk, waiting: seq<Chunk>, without: seq<Chunk>, with: seq<Chunk>, done: seq<Chunk>)
    requires multiset(with) == multiset(without) + multiset{c}
    ensures multiset(waiting) + multiset(without) + multiset(done + [c])
            == multiset(waiting) + multiset(with) + multiset(done)
  {
    assert multiset(done + [c]) == multiset(done) + multiset{c};
  }

  /** Each chunk has left the queue head exactly once more than it came back. */
  lemma HeadCounts(p: Params, s: State)
    requires Inv(p, s)
    ensures s.head == |Flight(s.workers)| + |s.finished|
  {
    assert |Books(s)| == |Pending(s)| + |Flight(s.workers)| + |s.finished|;
    assert |multiset(AllChunks(p))| == |AllChunks(p)|;
  }

  lemma {:induction false} FlightMember(ws: seq<Slot>, i: nat)
    requires i < |ws| && ws[i].active
    ensures ws[i].chunk in Flight(ws)
  {
    if i > 0 {
      FlightMember(ws[1..], i - 1);
    }
  }

  /** A worker's chunk is one of the image's chunks, and some slot below the head is free for it. */
  lemma HeldChunk(p: Params, s: State, i: nat)
    requires Inv(p, s) && i < p.slots && s.workers[i].active
    ensures s.head > 0 && s.workers[i].chunk in AllChunks(p)
  {
    HeadCounts(p, s);
    FlightMember(s.workers, i);
    assert s.workers[i].chunk in Books(s);
  }

  // ---- Step 1: dispatch --------------------------------------------------------------------

  function Drop(s: State, i: nat): State
    requires i < |s.workers|
  {
    s.(workers := s.workers[i := s.workers[i].(sock := -1)])
  }

  function SendTo(s: State, i: nat): State
    requires i < |s.workers| && s.head < |s.queue|
  {
    s.(head := s.head + 1, workers := s.workers[i := Slot(s.workers[i].sock, true, s.queue[s.head])])
  }

  /** Serve worker i: skip it, drop it, terminate it, or send it the chunk at the head. */
  function DispatchTo(env: Env, round: nat, i: nat, s: State): State
    requires i < |s.workers|
  {
    var w := s.workers[i];
    if w.sock < 0 || w.active then s
    else if !env.request(round, i) then Drop(s, i)
    else if s.head >= |s.queue| then Drop(s, i)
    else if !env.send(round, i) then Drop(s, i)
    else SendTo(s, i)
  }

  lemma SendFlight(s: State, i: nat)
    requires s.head < |s.queue| && i < |s.workers| && !s.workers[i].active && s.workers[i].sock >= 0
    ensures var t := SendTo(s, i);
            && multiset(Flight(t.workers)) == multiset(Flight(s.workers)) + multiset{s.queue[s.head]}
            && |Flight(t.workers)| == |Flight(s.workers)| + 1
            && Live(t.workers) == Live(s.workers)
  {
    assert s.workers[i := s.workers[i]] == s.workers;
    FlightToggle(s.workers, i, s.workers[i], Slot(s.workers[i].sock, true, s.queue[s.head]));
  }

  lemma SendPending(s: State, i: nat)
    requires s.head < |s.queue| && i < |s.workers|
    ensures Pending(s) == [s.queue[s.head]] + Pending(SendTo(s, i))
  {
  }

  /** Sending out the chunk at the head moves it from the waiting to the outstanding ones. */
  lemma SendBooks(s: State, i: nat)
    requires s.head < |s.queue| && i < |s.workers| && !s.workers[i].active && s.workers[i].sock >= 0
    ensures Books(SendTo(s, i)) == Books(s) && Measure(SendTo(s, i)) == Measure(s)
  {
    SendFlight(s, i);
    SendPending(s, i);
    SentCounts(s.queue[s.head], Pending(SendTo(s, i)), Flight(s.workers), Flight(SendTo(s, i).workers), s.finished);
  }

  /** Dropping an idle worker moves no chunk. */
  lemma DropBooks(s: State, i: nat)
    requires s.head <= |s.queue| && i < |s.workers| && !s.workers[i].active && s.workers[i].sock >= 0
    ensures Books(Drop(s, i)) == Books(s) && Measure(Drop(s, i)) < Measure(s)
  {
    assert s.workers[i := s.workers[i]] == s.workers;
    FlightIdle(s.workers, i, s.workers[i], s.workers[i].(sock := -1));
  }

  lemma DropKeeps(p: Params, s: State, i: nat)
    requires Inv(p, s) && i < p.slots && !s.workers[i].active && s.workers[i].sock >= 0
    ensures Inv(p, Drop(s, i)) && Measure(Drop(s, i)) < Measure(s)
  {
    DropBooks(s, i);
  }

  lemma SendKeeps(p: Params, s: State, i: nat)
    requires Inv(p, s) && i < p.slots && !s.workers[i].active && s.workers[i].sock >= 0 && s.head < |s.queue|
    ensures Inv(p, SendTo(s, i)) && Measure(SendTo(s, i)) == Measure(s)
  {
    SendBooks(s, i);
  }

  lemma DispatchToKeeps(p: Params, env: Env, round: nat, i: nat, s: State)
    requires Inv(p, s) && i < p.slots
    ensures Inv(p, DispatchTo(env, round, i, s))
    ensures Measure(DispatchTo(env, round, i, s)) <= Measure(s)
  {
    var w := s.workers[i];
    if w.sock >= 0 && !w.active {
      DropKeeps(p, s, i);
      if s.head < |s.queue| {
        SendKeeps(p, s, i);
      }
    }
  }

  /** Step 1 from worker i on.  It changes only the queue head and the worker records. */
  function Dispatch(env: Env, round: nat, i: nat, s: State): (t: State)
    requires i <= |s.workers|
    ensures |t.workers| == |s.workers| && t == s.(head := t.head, workers := t.workers)
    decreases |s.workers| - i
  {
    if i == |s.workers| then s else Dispatch(env, round, i + 1, DispatchTo(env, round, i, s))
  }

  lemma {:induction false} DispatchKeeps(p: Params, env: Env, round: nat, i: nat, s: State)
    requires Inv(p, s) && i <= p.slots
    ensures Inv(p, Dispatch(env, round, i, s)) && Measure(Dispatch(env, round, i, s)) <= Measure(s)
    decreases p.slots - i
  {
    if i < p.slots {
      DispatchToKeeps(p, env, round, i, s);
      DispatchKeeps(p, env, round, i + 1, DispatchTo(env, round, i, s));
    }
  }

  /**
   * Step 1 leaves no connected worker idle, and busy workers as they were.  An idle worker stays connected
   * only if its request arrived and a chunk was sent to it, over the socket that it had.
   */
  lemma {:induction false} DispatchEffect(env: Env, round: nat, i: nat, s: State)
    requires i <= |s.workers|
    ensures var t := Dispatch(env, round, i, s);
            && (forall j | 0 <= j < i :: t.workers[j] == s.workers[j])
            && (forall j | i <= j < |s.workers| :: t.workers[j].sock >= 0 ==> t.workers[j].active)
            && (forall j | 0 <= j < |s.workers| :: s.workers[j].active ==> t.workers[j] == s.workers[j])
            && (forall j | i <= j < |s.workers| && !s.workers[j].active ::
                  t.workers[j].sock >= 0 ==> env.request(round, j) && env.send(round, j))
            && (forall j | 0 <= j < |s.workers| :: t.workers[j].sock == s.workers[j].sock || t.workers[j].sock == -1)
    decreases |s.workers| - i
  {
    if i < |s.workers| {
      DispatchEffect(env, round, i + 1, DispatchTo(env, round, i, s));
    }
  }

  // ---- Step 2: the watched workers -----------------------------------------------------------

  function Watched(ws: seq<Slot>): set<nat> {
    set i: nat | i < |ws| && ws[i].sock >= 0 && ws[i].active
  }

  // ---- Failure paths -------------------------------------------------------------------------

  /** Put worker i's chunk in the slot below the head, whatever that slot held, and drop the worker. */
  function Requeue(s: State, i: nat): State
    requires i < |s.workers| && 0 < s.head <= |s.queue|
  {
    s.(head := s.head - 1,
    queue := s.queue[s.head - 1 := s.workers[i].chunk],
    workers := s.workers[i := s.workers[i].(sock := -1, active := false)])
  }

  lemma RequeueFlight(s: State, i: nat)
    requires i < |s.workers| && 0 < s.head <= |s.queue| && s.workers[i].active && s.workers[i].sock >= 0
    ensures var t := Requeue(s, i);
            && multiset(Flight(s.workers)) == multiset(Flight(t.workers)) + multiset{s.workers[i].chunk}
            && |Flight(s.workers)| == |Flight(t.workers)| + 1
            && Live(s.workers) == Live(t.workers) + 1
  {
    assert s.workers[i := s.workers[i]] == s.workers;
    FlightToggle(s.workers, i, s.workers[i].(sock := -1, active := false), s.workers[i]);
  }

  lemma RequeuePending(s: State, i: nat)
    requires i < |s.workers| && 0 < s.head <= |s.queue|
    ensures Pending(Requeue(s, i)) == [s.workers[i].chunk] + Pending(s)
  {
  }

  lemma RequeueBooks(s: State, i: nat)
    requires i < |s.workers| && 0 < s.head <= |s.queue| && s.workers[i].active && s.workers[i].sock >= 0
    ensures Books(Requeue(s, i)) == Books(s) && Measure(Requeue(s, i)) == Measure(s) - 1
  {
    RequeueFlight(s, i);
    RequeuePending(s, i);
    SentCounts(s.workers[i].chunk, Pending(s), Flight(Requeue(s, i).workers), Flight(s.workers), s.finished);
  }

  /** Overwriting the slot below the head loses nothing: the chunk that was there is held or finished. */
  lemma RequeueKeeps(p: Params, s: State, i: nat)
    requires Inv(p, s) && i < p.slots && s.workers[i].active && s.head > 0
    ensures Inv(p, Requeue(s, i)) && Measure(Requeue(s, i)) == Measure(s) - 1
    ensures Pending(Requeue(s, i)) == [s.workers[i].chunk] + Pending(s)
  {
    RequeueBooks(s, i);
    RequeuePending(s, i);
  }

  /** There is a free slot below the head for every chunk held from worker i on. */
  predicate Room(s: State, i: nat) {
    i <= |s.workers| && |Flight(s.workers[i..])| <= s.head <= |s.queue|
  }

  lemma RoomNext(s: State, i: nat)
    requires Room(s, i) && i < |s.workers|
    ensures Room(s, i + 1)
    ensures s.workers[i].active ==> s.head > 0 && Room(Requeue(s, i), i + 1)
  {
    assert s.workers[i..][1..] == s.workers[i + 1..];
    if s.workers[i].active {
      assert Requeue(s, i).workers[i + 1..] == s.workers[i + 1..];
    }
  }

  /** The timeout branch from worker i on: every worker with a chunk is closed, its chunk requeued. */
  function TimeoutSweep(i: nat, s: State): (t: State)
    requires Room(s, i)
    ensures |t.workers| == |s.workers| && t == s.(queue := t.queue, head := t.head, workers := t.workers)
    decreases |s.workers| - i
  {
    if i == |s.workers| then s
    else
      RoomNext(s, i);
      TimeoutSweep(i + 1, if s.workers[i].sock >= 0 && s.workers[i].active then Requeue(s, i) else s)
  }

  lemma InvRoom(p: Params, s: State)
    requires Inv(p, s)
    ensures Room(s, 0)
  {
    assert s.workers[0..] == s.workers;
    HeadCounts(p, s);
  }

  lemma {:induction false} TimeoutKeeps(p: Params, i: nat, s: State)
    requires Inv(p, s) && Room(s, i)
    ensures Inv(p, TimeoutSweep(i, s)) && Measure(TimeoutSweep(i, s)) <= Measure(s)
    ensures (exists j | i <= j < p.slots :: s.workers[j].active) ==> Measure(TimeoutSweep(i, s)) < Measure(s)
    decreases p.slots - i
  {
    if i < p.slots {
      RoomNext(s, i);
      if s.workers[i].active {
        RequeueKeeps(p, s, i);
        TimeoutKeeps(p, i + 1, Requeue(s, i));
      } else {
        TimeoutKeeps(p, i + 1, s);
      }
    }
  }

  /** A record after the timeout branch: no chunk, and connected only if it was and had none. */
  predicate Swept(before: Slot, after: Slot) {
    && (after.sock == before.sock || after.sock == -1)
    && ((before.active ==> before.sock >= 0) ==>
          !after.active && (after.sock >= 0 <==> before.sock >= 0 && !before.active))
  }

  lemma {:induction false} TimeoutEffect(i: nat, s: State)
    requires Room(s, i)
    ensures forall j | 0 <= j < i :: TimeoutSweep(i, s).workers[j] == s.workers[j]
    ensures forall j | i <= j < |s.workers| :: Swept(s.workers[j], TimeoutSweep(i, s).workers[j])
    decreases |s.workers| - i
  {
    if i < |s.workers| {
      RoomNext(s, i);
      TimeoutEffect(i + 1, if s.workers[i].sock >= 0 && s.workers[i].active then Requeue(s, i) else s);
    }
  }

  // ---- Step 3: collect -----------------------------------------------------------------------

  function TaskFor(p: Params, c: Chunk): Task {
    Task(p.view.width, p.view.height, Wrap32(c.start), Wrap32(c.rows), p.view.maxIter,
         p.view.centerX, p.view.centerY, p.view.zoom)
  }

  /** Byte offset and byte count of the copy into the image, in the 32-bit arithmetic of the code. */
  function Offset(p: Params, r: Result): U32 {
    Wrap32(r.startRow * p.view.width)
  }

  function Count(p: Params, r: Result): U32 {
    Wrap32(r.numRows * p.view.width)
  }

  /** The copy stays inside the image and inside the received pixels; otherwise C leaves it undefined. */
  predicate FitsImage(p: Params, r: Result) {
    Offset(p, r) + Count(p, r) <= p.view.width * p.view.height && Count(p, r) <= |r.pixels|
  }

  function Paste(p: Params, image: seq<Byte>, r: Result): (t: seq<Byte>)
    requires FitsImage(p, r) && |image| == p.view.width * p.view.height
    ensures |t| == |image|
  {
    image[..Offset(p, r)] + r.pixels[..Count(p, r)] + image[Offset(p, r) + Count(p, r)..]
  }

  /** Whatever a worker replies to one of this image's tasks, copying it is defined. */
  ghost predicate RepliesFit(p: Params, env: Env)
    requires p.size > 0
  {
    forall round: nat, i: nat, c: Chunk {:trigger Incoming(p, env, round, i, c)} | c in AllChunks(p) ::
      Incoming(p, env, round, i, c).Got? ==> FitsImage(p, Incoming(p, env, round, i, c).value)
  }

  /** What `recv_result` makes of the bytes that arrive from worker i for chunk c. */
  function Incoming(p: Params, env: Env, round: nat, i: nat, c: Chunk): Reading<Result> {
    ReadResult(env.reply(round, i, EncodeTask(TaskFor(p, c))))
  }

  /** Accept the result r from worker i. */
  function Accept(p: Params, s: State, i: nat, r: Result): State
    requires i < |s.workers| && FitsImage(p, r) && |s.image| == p.view.width * p.view.height
  {
    s.(image := Paste(p, s.image, r),
    completed := Wrap32(s.completed + r.numRows),
    workers := s.workers[i := s.workers[i].(active := false)],
    finished := s.finished + [s.workers[i].chunk],
    copied := s.copied + [Chunk(r.startRow, r.numRows)])
  }

  lemma AcceptFlight(p: Params, s: State, i: nat, r: Result)
    requires i < |s.workers| && FitsImage(p, r) && |s.image| == p.view.width * p.view.height && s.workers[i].active
    requires s.workers[i].sock >= 0
    ensures var t := Accept(p, s, i, r);
            && multiset(Flight(s.workers)) == multiset(Flight(t.workers)) + multiset{s.workers[i].chunk}
            && |Flight(s.workers)| == |Flight(t.workers)| + 1
            && Live(s.workers) == Live(t.workers)
  {
    assert s.workers[i := s.workers[i]] == s.workers;
    FlightToggle(s.workers, i, s.workers[i].(active := false), s.workers[i]);
  }

  lemma AcceptBooks(p: Params, s: State, i: nat, r: Result)
    requires i < |s.workers| && FitsImage(p, r) && |s.image| == p.view.width * p.view.height && s.workers[i].active
    requires s.workers[i].sock >= 0 && s.head <= |s.queue|
    ensures Books(Accept(p, s, i, r)) == Books(s) && Measure(Accept(p, s, i, r)) == Measure(s) - 1
  {
    AcceptFlight(p, s, i, r);
    DoneCounts(s.workers[i].chunk, Pending(s), Flight(Accept(p, s, i, r).workers), Flight(s.workers), s.finished);
  }

  lemma AcceptKeeps(p: Params, s: State, i: nat, r: Result)
    requires Inv(p, s) && i < p.slots && s.workers[i].active && FitsImage(p, r)
    ensures Inv(p, Accept(p, s, i, r)) && Measure(Accept(p, s, i, r)) == Measure(s) - 1
  {
    AcceptBooks(p, s, i, r);
  }

  /** Step 3 for worker i, whose socket is ready. */
  function CollectFrom(p: Params, env: Env, round: nat, i: nat, s: State): State
    requires Inv(p, s) && RepliesFit(p, env) && i < p.slots && s.workers[i].active
  {
    HeldChunk(p, s, i);
    match Incoming(p, env, round, i, s.workers[i].chunk)
    case Failed => Requeue(s, i)
    case Got(r, _) => Accept(p, s, i, r)
  }

  lemma CollectFromKeeps(p: Params, env: Env, round: nat, i: nat, s: State)
    requires Inv(p, s) && RepliesFit(p, env) && i < p.slots && s.workers[i].active
    ensures Inv(p, CollectFrom(p, env, round, i, s))
    ensures Measure(CollectFrom(p, env, round, i, s)) == Measure(s) - 1
  {
    HeldChunk(p, s, i);
    match Incoming(p, env, round, i, s.workers[i].chunk)
    case Failed => RequeueKeeps(p, s, i);
    case Got(r, _) => AcceptKeeps(p, s, i, r);
  }

  predicate IsReady(s: State, ready: set<nat>, i: nat)
    requires i < |s.workers|
  {
    s.workers[i].sock >= 0 && s.workers[i].active && i in ready
  }

  /** Step 3 from worker i on. */
  function Collect(p: Params, env: Env, round: nat, ready: set<nat>, i: nat, s: State): (t: State)
    requires Inv(p, s) && RepliesFit(p, env) && i <= p.slots
    ensures Inv(p, t) && Measure(t) <= Measure(s)
    ensures (exists j | i <= j < p.slots :: IsReady(s, ready, j)) ==> Measure(t) < Measure(s)
    decreases p.slots - i
  {
    if i == p.slots then s
    else if IsReady(s, ready, i) then
      CollectFromKeeps(p, env, round, i, s);
      Collect(p, env, round, ready, i + 1, CollectFrom(p, env, round, i, s))
    else Collect(p, env, round, ready, i + 1, s)
  }

  // ---- The loop ------------------------------------------------------------------------------

  datatype Exit = AllRowsIn | AllDead | SelectBroke

  datatype Turn = Again(next: State) | Stop(exit: Exit, last: State)

  /** One round of the loop body. */
  function Round(p: Params, env: Env, round: nat, s: State): (turn: Turn)
    requires Inv(p, s) && SelectObeys(env) && RepliesFit(p, env)
    ensures turn.Again? ==> Inv(p, turn.next) && Measure(turn.next) < Measure(s)
    ensures turn.Stop? ==> Inv(p, turn.last) && turn.exit != AllRowsIn && turn.last.completed == s.completed
  {
    DispatchKeeps(p, env, round, 0, s);
    var d := Dispatch(env, round, 0, s);
    var watched := Watched(d.workers);
    if watched == {} then Stop(AllDead, d)
    else
      WatchedMember(d.workers);
      match env.select(round, watched)
      case SelectError => Stop(SelectBroke, d)
      case TimedOut =>
        InvRoom(p, d);
        TimeoutKeeps(p, 0, d);
        Again(TimeoutSweep(0, d))
      case Ready(socks) =>
        ReadyMember(d, socks);
        Again(Collect(p, env, round, socks, 0, d))
  }

  lemma WatchedMember(ws: seq<Slot>)
    requires Watched(ws) != {}
    ensures exists j | 0 <= j < |ws| :: ws[j].active
  {
    var j :| j in Watched(ws);
    assert ws[j].active;
  }

  lemma ReadyMember(s: State, socks: set<nat>)
    requires socks != {} && socks <= Watched(s.workers)
    ensures exists j | 0 <= j < |s.workers| :: IsReady(s, socks, j)
  {
    var j :| j in socks;
    assert IsReady(s, socks, j);
  }

  /** How the loop ended, after how many rounds, and in which state. */
  datatype Outcome = Outcome(exit: Exit, rounds: nat, state: State)

  /** The loop from a given round on.  That this function terminates is the termination of the loop. */
  function RunFrom(p: Params, env: Env, round: nat, s: State): (o: Outcome)
    requires Inv(p, s) && SelectObeys(env) && RepliesFit(p, env)
    ensures Inv(p, o.state)
    ensures o.exit == AllRowsIn <==> o.state.completed >= p.view.height
    ensures round <= o.rounds <= round + Measure(s)
    decreases Measure(s)
  {
    if s.completed >= p.view.height then Outcome(AllRowsIn, round, s)
    else
      match Round(p, env, round, s)
      case Stop(exit, last) => Outcome(exit, round, last)
      case Again(next) => RunFrom(p, env, round + 1, next)
  }

  // ---- Start ---------------------------------------------------------------------------------

  function Accepted(env: Env, n: nat): (ws: seq<Slot>)
    ensures |ws| == n
    ensures forall i | 0 <= i < n :: ws[i] == Slot(env.accept(i), false, Chunk(0, 0))
  {
    if n == 0 then [] else Accepted(env, n - 1) + [Slot(env.accept(n - 1), false, Chunk(0, 0))]
  }

  function Start(p: Params, env: Env): State
    requires p.size > 0
  {
    State(AllChunks(p), 0, Accepted(env, p.slots), seq(p.view.width * p.view.height, i => 0), 0, [], [])
  }

  lemma {:induction false} NothingHeld(ws: seq<Slot>)
    requires forall w | w in ws :: !w.active
    ensures Flight(ws) == []
  {
    if ws != [] {
      assert ws[0] in ws;
      NothingHeld(ws[1..]);
    }
  }

  lemma {:induction false} LiveBound(ws: seq<Slot>)
    ensures Live(ws) <= |ws|
  {
    if ws != [] {
      LiveBound(ws[1..]);
    }
  }

  lemma StartInv(p: Params, env: Env)
    requires ValidParams(p)
    ensures Inv(p, Start(p, env))
    ensures Measure(Start(p, env)) <= TotalChunks(p.view.height, p.size) + p.slots
  {
    var s := Start(p, env);
    NothingHeld(s.workers);
    LiveBound(s.workers);
    QueueIsSplit(p.view.height, p.size);
    assert Pending(s) == s.queue;
  }
}
