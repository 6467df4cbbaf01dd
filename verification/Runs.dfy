/** What whole runs of the master guarantee, for every behaviour of the outside world. */
module Runs {
  import opened Bytes
  import opened Wire
  import opened Render
  import opened Chunks
  import opened Scheduler

  // ---- Workers that behave as the worker program does ----------------------------------------

  /** Every worker answers with (a prefix of) what the worker program sends for those bytes. */
  ghost predicate Honest(p: Params, env: Env) {
    forall round: nat, i: nat, sent: seq<Byte> :: env.reply(round, i, sent) <= WorkerReply(p.paint, sent)
  }

  function Lo(p: Params, c: Chunk): nat {
    c.start * p.view.width
  }

  function Hi(p: Params, c: Chunk): nat {
    (c.start + c.rows) * p.view.width
  }

  function Target(p: Params): seq<Byte> {
    FullImage(p.paint, p.view)
  }

  /** The chunk's part of the image is final. */
  ghost predicate Painted(p: Params, image: seq<Byte>, c: Chunk) {
    && |image| == |Target(p)|
    && Hi(p, c) <= |image|
    && forall k | Lo(p, c) <= k < Hi(p, c) :: image[k] == Target(p)[k]
  }

  /**
   * With honest workers the copies are the finished chunks, `completed_rows` counts their rows, and
   * the image holds their pixels.
   */
  ghost predicate Faithful(p: Params, s: State) {
    && Inv(p, s)
    && s.copied == s.finished
    && s.completed == Sum(RowsOf(), s.finished)
    && (forall c | c in s.finished :: Painted(p, s.image, c))
  }

  lemma TargetLength(p: Params)
    requires ValidParams(p)
    ensures |Target(p)| == p.view.width * p.view.height
  {
    RowsLength(p.paint, p.view, 0, p.view.height);
  }

  lemma ChunkFacts(p: Params, c: Chunk)
    requires ValidParams(p) && c in AllChunks(p)
    ensures 1 <= c.rows && c.start + c.rows <= p.view.height
    ensures Lo(p, c) <= Hi(p, c) <= p.view.width * p.view.height < 0x8000_0000
    ensures Hi(p, c) == Lo(p, c) + c.rows * p.view.width && c.rows * p.view.width <= Hi(p, c)
  {
    SplitBounds(0, p.view.height, p.size);
    MulMonotone(c.start, c.start + c.rows, p.view.width);
    MulMonotone(c.start + c.rows, p.view.height, p.view.width);
  }

  lemma ChunkPixels(p: Params, c: Chunk)
    requires ValidParams(p) && c in AllChunks(p)
    ensures Lo(p, c) <= Hi(p, c) <= |Target(p)|
    ensures Rows(p.paint, p.view, c.start, c.rows) == Target(p)[Lo(p, c)..Hi(p, c)]
  {
    SplitBounds(0, p.view.height, p.size);
    RowsSlice(p.paint, p.view, c.start, c.rows, p.view.height);
  }

  lemma TaskForFits(p: Params, c: Chunk)
    requires ValidParams(p) && c in AllChunks(p)
    ensures var t := TaskFor(p, c);
            && TaskFits(t) && t.startRow == c.start && t.numRows == c.rows
            && ViewOf(t) == p.view && t.width == p.view.width && t.height == p.view.height
            && t.maxIter == p.view.maxIter && t.centerX == p.view.centerX && t.centerY == p.view.centerY
            && t.zoom == p.view.zoom
  {
    ChunkFacts(p, c);
  }

  /** The complete answer to a chunk of the image, read back by the master, is its rows. */
  lemma CompleteReply(p: Params, c: Chunk)
    requires ValidParams(p) && c in AllChunks(p)
    ensures WorkerReply(p.paint, EncodeTask(TaskFor(p, c))) == EncodeResult(ResultFor(p.paint, TaskFor(p, c)))
    ensures ReadResult(WorkerReply(p.paint, EncodeTask(TaskFor(p, c)))) == Got(ResultFor(p.paint, TaskFor(p, c)), [])
    ensures Sized(ResultFor(p.paint, TaskFor(p, c)))
  {
    var t := TaskFor(p, c);
    TaskForFits(p, c);
    ReadEncodedTask(t, []);
    assert EncodeTask(t) + [] == EncodeTask(t);
    ResultForSized(p.paint, t);
    ReadEncodedResult(ResultFor(p.paint, t), []);
    assert EncodeResult(ResultFor(p.paint, t)) + [] == EncodeResult(ResultFor(p.paint, t));
  }

  /** From an honest worker the master either reads nothing or exactly the rows it asked for. */
  lemma HonestIncoming(p: Params, env: Env, round: nat, i: nat, c: Chunk)
    requires ValidParams(p) && c in AllChunks(p) && Honest(p, env)
    ensures var r := Incoming(p, env, round, i, c); r.Got? ==> r.value == ResultFor(p.paint, TaskFor(p, c))
  {
    var sent := EncodeTask(TaskFor(p, c));
    CompleteReply(p, c);
    var got := env.reply(round, i, sent);
    assert got <= WorkerReply(p.paint, sent);
    if got != WorkerReply(p.paint, sent) {
      TruncatedResultFails(ResultFor(p.paint, TaskFor(p, c)), got);
    }
  }

  /** The answer to a chunk lands on that chunk's bytes and nowhere else. */
  lemma HonestPaste(p: Params, c: Chunk)
    requires ValidParams(p) && c in AllChunks(p)
    ensures var r := ResultFor(p.paint, TaskFor(p, c));
            && r.startRow == c.start && r.numRows == c.rows
            && Offset(p, r) == Lo(p, c) && Count(p, r) == |r.pixels| && Offset(p, r) + Count(p, r) == Hi(p, c)
            && FitsImage(p, r) && r.pixels == Rows(p.paint, p.view, c.start, c.rows)
  {
    TaskForFits(p, c);
    ChunkFacts(p, c);
    RowsLength(p.paint, p.view, c.start, c.rows);
  }

  /** Honest replies always fit, so honest runs need no further assumption on the copies. */
  lemma HonestFits(p: Params, env: Env)
    requires ValidParams(p) && Honest(p, env)
    ensures RepliesFit(p, env)
  {
    forall round: nat, i: nat, c: Chunk | c in AllChunks(p) && Incoming(p, env, round, i, c).Got?
      ensures FitsImage(p, Incoming(p, env, round, i, c).value)
    {
      HonestIncoming(p, env, round, i, c);
      HonestPaste(p, c);
    }
  }

  lemma PastePaints(p: Params, image: seq<Byte>, c: Chunk)
    requires ValidParams(p) && c in AllChunks(p) && |image| == p.view.width * p.view.height
    requires FitsImage(p, ResultFor(p.paint, TaskFor(p, c)))
    ensures Painted(p, Paste(p, image, ResultFor(p.paint, TaskFor(p, c))), c)
    ensures forall d | Painted(p, image, d) :: Painted(p, Paste(p, image, ResultFor(p.paint, TaskFor(p, c))), d)
  {
    ChunkFacts(p, c);
    ChunkPixels(p, c);
    TargetLength(p);
    HonestPaste(p, c);
    var r := ResultFor(p.paint, TaskFor(p, c));
    var after := Paste(p, image, r);
    forall k | 0 <= k < |image|
      ensures after[k] == if Lo(p, c) <= k < Hi(p, c) then Target(p)[k] else image[k]
    {
      PasteAt(image, r.pixels, Lo(p, c), Hi(p, c), k);
    }
  }

  lemma PasteAt(image: seq<Byte>, data: seq<Byte>, lo: nat, hi: nat, k: nat)
    requires lo <= hi <= |image| && |data| == hi - lo && k < |image|
    ensures (image[..lo] + data[..hi - lo] + image[hi..])[k] == if lo <= k < hi then data[k - lo] else image[k]
  {
  }

  // ---- Row accounts --------------------------------------------------------------------------

  /** Waiting, outstanding and finished rows add up to the height, in every run. */
  lemma RowAccounts(p: Params, s: State)
    requires Inv(p, s)
    ensures Sum(RowsOf(), Pending(s)) + Sum(RowsOf(), Flight(s.workers)) + Sum(RowsOf(), s.finished) == p.view.height
  {
    BooksSum(RowsOf(), p, s);
    SplitRows(0, p.view.height, p.size);
  }

  lemma BooksSum(f: Chunk -> nat, p: Params, s: State)
    requires Inv(p, s)
    ensures Sum(f, Pending(s)) + Sum(f, Flight(s.workers)) + Sum(f, s.finished) == Sum(f, AllChunks(p))
  {
    SumPermutation(f, Pending(s) + Flight(s.workers) + s.finished, AllChunks(p));
    SumConcat(f, Pending(s) + Flight(s.workers), s.finished);
    SumConcat(f, Pending(s), Flight(s.workers));
  }

  /** The rows still missing are exactly the waiting and the outstanding ones. */
  lemma MissingRows(p: Params, s: State)
    requires Faithful(p, s)
    ensures s.completed <= p.view.height
    ensures p.view.height - s.completed == Sum(RowsOf(), Pending(s)) + Sum(RowsOf(), Flight(s.workers))
  {
    RowAccounts(p, s);
  }

  lemma {:induction false} NoRows(p: Params, cs: seq<Chunk>)
    requires ValidParams(p) && (forall c | c in cs :: c in AllChunks(p)) && Sum(RowsOf(), cs) == 0
    ensures cs == []
  {
    if cs != [] {
      assert cs[0] in cs;
      ChunkFacts(p, cs[0]);
    }
  }

  lemma BooksMembers(p: Params, s: State)
    requires Inv(p, s)
    ensures forall c | c in Pending(s) || c in Flight(s.workers) || c in s.finished :: c in AllChunks(p)
  {
    forall c | c in Pending(s) || c in Flight(s.workers) || c in s.finished
      ensures c in AllChunks(p)
    {
      assert c in Books(s);
    }
  }

  /** Once all rows are counted nothing is left over and every pixel is final. */
  lemma AllRowsDone(p: Params, s: State)
    requires Faithful(p, s) && s.completed >= p.view.height
    ensures s.completed == p.view.height
    ensures Pending(s) == [] && Flight(s.workers) == []
    ensures s.image == Target(p)
    ensures forall row: nat :: Sum(Covers(row), s.copied) == if row < p.view.height then 1 else 0
  {
    MissingRows(p, s);
    BooksMembers(p, s);
    NoRows(p, Pending(s));
    NoRows(p, Flight(s.workers));
    forall row: nat
      ensures Sum(Covers(row), s.copied) == if row < p.view.height then 1 else 0
    {
      CopiedOnce(p, s, row);
    }
    TargetLength(p);
    forall k | 0 <= k < |s.image|
      ensures s.image[k] == Target(p)[k]
    {
      FinalPixel(p, s, k);
    }
  }

  lemma FinalPixel(p: Params, s: State, k: nat)
    requires Faithful(p, s) && Pending(s) == [] && Flight(s.workers) == [] && k < |s.image|
    ensures k < |Target(p)| && s.image[k] == Target(p)[k]
  {
    var row := RowOfPixel(k, p.view.width, p.view.height);
    CopiedOnce(p, s, row);
    PixelDone(p, s, row, k);
  }

  lemma CopiedOnce(p: Params, s: State, row: nat)
    requires Faithful(p, s) && Pending(s) == [] && Flight(s.workers) == []
    ensures Sum(Covers(row), s.copied) == if row < p.view.height then 1 else 0
  {
    BooksSum(Covers(row), p, s);
    SplitPartitions(0, p.view.height, p.size, row);
  }

  /** A pixel lies in the part of every chunk that covers its row. */
  lemma PixelInChunk(p: Params, c: Chunk, row: nat, k: nat)
    requires Covers(row)(c) > 0 && row * p.view.width <= k < (row + 1) * p.view.width
    ensures Lo(p, c) <= k < Hi(p, c)
  {
    MulMonotone(c.start, row, p.view.width);
    MulMonotone(row + 1, c.start + c.rows, p.view.width);
  }

  lemma PixelDone(p: Params, s: State, row: nat, k: nat)
    requires Faithful(p, s) && Sum(Covers(row), s.copied) > 0
    requires row * p.view.width <= k < (row + 1) * p.view.width
    ensures k < |s.image| && k < |Target(p)| && s.image[k] == Target(p)[k]
  {
    var c := SumWitness(Covers(row), s.copied);
    PixelInChunk(p, c, row, k);
    assert Painted(p, s.image, c);
  }

  lemma RowOfPixel(k: nat, width: nat, height: nat) returns (row: nat)
    requires k < width * height
    ensures row < height && row * width <= k < (row + 1) * width
  {
    assert width > 0;
    row := k / width;
    if row >= height {
      MulMonotone(height, row, width);
    }
  }

  // ---- Honest runs ---------------------------------------------------------------------------

  lemma AcceptFaithful(p: Params, env: Env, round: nat, i: nat, s: State)
    requires Faithful(p, s) && Honest(p, env) && RepliesFit(p, env) && i < p.slots && s.workers[i].active
    ensures Faithful(p, CollectFrom(p, env, round, i, s))
  {
    var c := s.workers[i].chunk;
    HeldChunk(p, s, i);
    CollectFromKeeps(p, env, round, i, s);
    var t := CollectFrom(p, env, round, i, s);
    HonestIncoming(p, env, round, i, c);
    if Incoming(p, env, round, i, c).Got? {
      HonestPaste(p, c);
      PastePaints(p, s.image, c);
      assert Chunk(c.start, c.rows) == c;
      SumConcat(RowsOf(), s.finished, [c]);
      assert Sum(RowsOf(), [c]) == c.rows;
      RowAccounts(p, t);
    }
  }

  lemma {:induction false} CollectFaithful(p: Params, env: Env, round: nat, ready: set<nat>, i: nat, s: State)
    requires Faithful(p, s) && Honest(p, env) && RepliesFit(p, env) && i <= p.slots
    ensures Faithful(p, Collect(p, env, round, ready, i, s))
    decreases p.slots - i
  {
    if i < p.slots {
      if IsReady(s, ready, i) {
        AcceptFaithful(p, env, round, i, s);
        CollectFaithful(p, env, round, ready, i + 1, CollectFrom(p, env, round, i, s));
      } else {
        CollectFaithful(p, env, round, ready, i + 1, s);
      }
    }
  }

  function AfterRound(turn: Turn): State {
    match turn
    case Again(next) => next
    case Stop(_, last) => last
  }

  lemma SameAccounts(p: Params, s: State, t: State)
    requires Faithful(p, s) && Inv(p, t)
    requires t.image == s.image && t.completed == s.completed && t.finished == s.finished && t.copied == s.copied
    ensures Faithful(p, t)
  {
  }

  lemma RoundFaithful(p: Params, env: Env, round: nat, s: State)
    requires Faithful(p, s) && Honest(p, env) && SelectObeys(env) && RepliesFit(p, env)
    ensures Faithful(p, AfterRound(Round(p, env, round, s)))
  {
    DispatchKeeps(p, env, round, 0, s);
    var d := Dispatch(env, round, 0, s);
    SameAccounts(p, s, d);
    var watched := Watched(d.workers);
    if watched != {} {
      match env.select(round, watched)
      case SelectError =>
      case TimedOut =>
        InvRoom(p, d);
        TimeoutKeeps(p, 0, d);
        SameAccounts(p, d, TimeoutSweep(0, d));
      case Ready(socks) =>
        CollectFaithful(p, env, round, socks, 0, d);
    }
  }

  lemma {:induction false} RunFaithful(p: Params, env: Env, round: nat, s: State)
    requires Faithful(p, s) && Honest(p, env) && SelectObeys(env) && RepliesFit(p, env)
    ensures Faithful(p, RunFrom(p, env, round, s).state)
    decreases Measure(s)
  {
    if s.completed < p.view.height {
      RoundFaithful(p, env, round, s);
      match Round(p, env, round, s)
      case Stop(_, _) =>
      case Again(next) => RunFaithful(p, env, round + 1, next);
    }
  }

  lemma StartFaithful(p: Params, env: Env)
    requires ValidParams(p)
    ensures Faithful(p, Start(p, env))
  {
    StartInv(p, env);
  }

  /** The whole program: accept the workers, then loop. */
  function Run(p: Params, env: Env): Outcome
    requires ValidParams(p) && SelectObeys(env) && RepliesFit(p, env)
  {
    StartInv(p, env);
    RunFrom(p, env, 0, Start(p, env))
  }

  /**
   * Safety of the distributed render.  Whatever mix of dispatches, results, disconnects, send
   * failures and timeouts occurs, a run that counts all rows has the sequential image and copied
   * every row exactly once; a run that stops earlier knows exactly how many rows it lacks.
   */
  lemma DistributedRender(p: Params, env: Env)
    requires ValidParams(p) && SelectObeys(env) && Honest(p, env)
    ensures RepliesFit(p, env)
    ensures var o := Run(p, env);
            o.state.completed == p.view.height ==>
              && o.exit == AllRowsIn
              && o.state.image == FullImage(p.paint, p.view)
              && (forall row: nat :: Sum(Covers(row), o.state.copied) == if row < p.view.height then 1 else 0)
    ensures var o := Run(p, env);
            o.state.completed != p.view.height ==>
              && o.exit != AllRowsIn
              && o.state.completed < p.view.height
              && p.view.height - o.state.completed
                 == Sum(RowsOf(), Pending(o.state)) + Sum(RowsOf(), Flight(o.state.workers))
  {
    HonestFits(p, env);
    StartFaithful(p, env);
    RunFaithful(p, env, 0, Start(p, env));
    var o := Run(p, env);
    MissingRows(p, o.state);
    if o.state.completed == p.view.height {
      AllRowsDone(p, o.state);
    }
  }

  /** However the workers reply, the loop ends within one round per chunk and per worker slot. */
  lemma RunTerminates(p: Params, env: Env)
    requires ValidParams(p) && SelectObeys(env) && RepliesFit(p, env)
    ensures Run(p, env).rounds <= TotalChunks(p.view.height, p.size) + p.slots
  {
    StartInv(p, env);
  }

  // ---- The abort message ---------------------------------------------------------------------

  lemma NobodyActive(ws: seq<Slot>)
    requires Watched(ws) == {}
    requires forall j | 0 <= j < |ws| :: ws[j].active ==> ws[j].sock >= 0
    ensures Flight(ws) == []
  {
    forall w | w in ws
      ensures !w.active
    {
      var j :| 0 <= j < |ws| && ws[j] == w;
      assert j !in Watched(ws);
    }
    NothingHeld(ws);
  }

  lemma RoundAllDead(p: Params, env: Env, round: nat, s: State)
    requires Inv(p, s) && SelectObeys(env) && RepliesFit(p, env)
    ensures var turn := Round(p, env, round, s);
            turn.Stop? && turn.exit == AllDead ==> Flight(turn.last.workers) == []
  {
    DispatchKeeps(p, env, round, 0, s);
    var d := Dispatch(env, round, 0, s);
    if Watched(d.workers) == {} {
      NobodyActive(d.workers);
    }
  }

  lemma {:induction false} RunAllDead(p: Params, env: Env, round: nat, s: State)
    requires Inv(p, s) && SelectObeys(env) && RepliesFit(p, env)
    ensures var o := RunFrom(p, env, round, s); o.exit == AllDead ==> Flight(o.state.workers) == []
    decreases Measure(s)
  {
    if s.completed < p.view.height {
      RoundAllDead(p, env, round, s);
      match Round(p, env, round, s)
      case Stop(_, _) =>
      case Again(next) => RunAllDead(p, env, round + 1, next);
    }
  }

  /** The number in the abort message is the number of rows left in the queue. */
  lemma AbortCount(p: Params, env: Env)
    requires ValidParams(p) && SelectObeys(env) && Honest(p, env) && RepliesFit(p, env)
    requires Run(p, env).exit == AllDead
    ensures p.view.height - Run(p, env).state.completed == Sum(RowsOf(), Pending(Run(p, env).state))
  {
    StartInv(p, env);
    DistributedRender(p, env);
    RunAllDead(p, env, 0, Start(p, env));
  }

  // ---- How the loop ends ---------------------------------------------------------------------

  /** In this round `select` can only fail. */
  ghost predicate SelectFails(env: Env, round: nat) {
    forall watched: set<nat> :: env.select(round, watched) == SelectError
  }

  /** A loop that ends with rows missing ends by a failing `select` if somebody is connected, and only then. */
  ghost predicate EndsRight(p: Params, env: Env, o: Outcome) {
    o.state.completed < p.view.height ==>
      && o.exit == (if SomeoneLive(o.state) then SelectBroke else AllDead)
      && (o.exit == SelectBroke ==> exists watched: set<nat> :: env.select(o.rounds, watched) == SelectError)
  }

  /** A round stops the loop because everybody is gone, or because of `select` while somebody is connected. */
  lemma RoundEnds(p: Params, env: Env, round: nat, s: State)
    requires Inv(p, s) && SelectObeys(env) && RepliesFit(p, env)
    ensures var turn := Round(p, env, round, s);
            && (SelectFails(env, round) ==> turn.Stop?)
            && (turn.Stop? ==>
                  && turn.exit == (if SomeoneLive(turn.last) then SelectBroke else AllDead)
                  && (turn.exit == SelectBroke ==> exists watched :: env.select(round, watched) == SelectError))
  {
    DispatchKeeps(p, env, round, 0, s);
    DispatchEffect(env, round, 0, s);
    var d := Dispatch(env, round, 0, s);
    if Watched(d.workers) == {} {
      forall j | 0 <= j < |d.workers|
        ensures d.workers[j].sock < 0
      {
        assert j !in Watched(d.workers);
      }
    } else {
      var j :| j in Watched(d.workers);
      assert d.workers[j].sock >= 0;
    }
  }

  lemma {:induction false} RunEnds(p: Params, env: Env, round: nat, s: State)
    requires Inv(p, s) && SelectObeys(env) && RepliesFit(p, env)
    ensures EndsRight(p, env, RunFrom(p, env, round, s))
    decreases Measure(s)
  {
    if s.completed < p.view.height {
      RoundEnds(p, env, round, s);
      match Round(p, env, round, s)
      case Stop(_, _) =>
      case Again(next) => RunEnds(p, env, round + 1, next);
    }
  }

  lemma {:induction false} StopsBy(p: Params, env: Env, round: nat, s: State, k: nat)
    requires Inv(p, s) && SelectObeys(env) && RepliesFit(p, env)
    requires round <= k < RunFrom(p, env, round, s).rounds
    ensures !SelectFails(env, k)
    decreases Measure(s)
  {
    RoundEnds(p, env, round, s);
    match Round(p, env, round, s)
    case Stop(_, _) =>
    case Again(next) =>
      if round < k {
        StopsBy(p, env, round + 1, next, k);
      }
  }

  /** With rows missing, the loop ends as soon as `select` fails, and else only once nobody is connected. */
  lemma SelectErrorStops(p: Params, env: Env, k: nat)
    requires ValidParams(p) && SelectObeys(env) && RepliesFit(p, env)
    ensures SelectFails(env, k) ==> Run(p, env).rounds <= k
    ensures EndsRight(p, env, Run(p, env))
  {
    StartInv(p, env);
    RunEnds(p, env, 0, Start(p, env));
    if k < Run(p, env).rounds {
      StopsBy(p, env, 0, Start(p, env), k);
    }
  }

  // ---- What reaches a worker -----------------------------------------------------------------

  /** In this round no worker's request arrives and gets its chunk sent. */
  ghost predicate NothingSent(env: Env, round: nat) {
    forall i: nat :: !(env.request(round, i) && env.send(round, i))
  }

  ghost predicate NobodyBusy(s: State) {
    forall j | 0 <= j < |s.workers| :: !s.workers[j].active
  }

  /** If nothing can be sent while nobody is busy, the loop stops without counting a row. */
  lemma NothingSentStops(p: Params, env: Env, round: nat, s: State)
    requires Inv(p, s) && SelectObeys(env) && RepliesFit(p, env) && NobodyBusy(s) && NothingSent(env, round)
    ensures var turn := Round(p, env, round, s);
            turn.Stop? && turn.exit == AllDead && turn.last.completed == s.completed && !SomeoneLive(turn.last)
  {
    DispatchEffect(env, round, 0, s);
    var d := Dispatch(env, round, 0, s);
    forall j | 0 <= j < |d.workers|
      ensures d.workers[j].sock < 0
    {
      assert !s.workers[j].active;
      assert d.workers[j].sock == s.workers[j].sock || d.workers[j].sock == -1;
    }
    assert Watched(d.workers) == {};
  }

  /** A run in which no task can be sent counts no row, whatever else happens: it aborts at once. */
  lemma NothingSentNothingDone(p: Params, env: Env)
    requires ValidParams(p) && SelectObeys(env) && RepliesFit(p, env) && p.view.height > 0 && NothingSent(env, 0)
    ensures Run(p, env).exit == AllDead && Run(p, env).state.completed == 0
  {
    StartInv(p, env);
    NothingSentStops(p, env, 0, Start(p, env));
  }

  /** Sockets only ever change by being closed. */
  ghost predicate SameSocks(s: State, t: State) {
    && |t.workers| == |s.workers|
    && forall j | 0 <= j < |s.workers| :: t.workers[j].sock == s.workers[j].sock || t.workers[j].sock == -1
  }

  lemma DispatchSocks(env: Env, round: nat, s: State)
    ensures SameSocks(s, Dispatch(env, round, 0, s))
  {
    DispatchEffect(env, round, 0, s);
  }

  lemma TimeoutSocks(s: State)
    requires Room(s, 0)
    ensures SameSocks(s, TimeoutSweep(0, s))
  {
    TimeoutEffect(0, s);
    forall j | 0 <= j < |s.workers|
      ensures TimeoutSweep(0, s).workers[j].sock == s.workers[j].sock || TimeoutSweep(0, s).workers[j].sock == -1
    {
      assert Swept(s.workers[j], TimeoutSweep(0, s).workers[j]);
    }
  }

  lemma CollectSocks(p: Params, env: Env, round: nat, socks: set<nat>, s: State)
    requires Inv(p, s) && RepliesFit(p, env)
    ensures SameSocks(s, Collect(p, env, round, socks, 0, s))
  {
    CollectSlots(p, env, round, socks, 0, s);
  }

  lemma RoundSocks(p: Params, env: Env, round: nat, s: State)
    requires Inv(p, s) && SelectObeys(env) && RepliesFit(p, env)
    ensures SameSocks(s, AfterRound(Round(p, env, round, s)))
  {
    DispatchKeeps(p, env, round, 0, s);
    DispatchSocks(env, round, s);
    var d := Dispatch(env, round, 0, s);
    var watched := Watched(d.workers);
    if watched != {} {
      match env.select(round, watched)
      case SelectError =>
      case TimedOut =>
        InvRoom(p, d);
        TimeoutKeeps(p, 0, d);
        TimeoutSocks(d);
        SocksTwice(s, d, TimeoutSweep(0, d));
      case Ready(socks) =>
        CollectSocks(p, env, round, socks, d);
        SocksTwice(s, d, Collect(p, env, round, socks, 0, d));
    }
  }

  lemma SocksTwice(s: State, d: State, t: State)
    requires SameSocks(s, d) && SameSocks(d, t)
    ensures SameSocks(s, t)
  {
    forall j | 0 <= j < |s.workers|
      ensures t.workers[j].sock == s.workers[j].sock || t.workers[j].sock == -1
    {
      assert d.workers[j].sock == s.workers[j].sock || d.workers[j].sock == -1;
    }
  }

  lemma {:induction false} RunSocks(p: Params, env: Env, round: nat, s: State)
    requires Inv(p, s) && SelectObeys(env) && RepliesFit(p, env)
    ensures SameSocks(s, RunFrom(p, env, round, s).state)
    decreases Measure(s)
  {
    if s.completed < p.view.height {
      RoundSocks(p, env, round, s);
      match Round(p, env, round, s)
      case Stop(_, _) =>
      case Again(next) =>
        RunSocks(p, env, round + 1, next);
        SocksTwice(s, next, RunFrom(p, env, round + 1, next).state);
    }
  }

  /** A connection open at the end of a run is the one that was accepted for that slot. */
  lemma AcceptedSocks(p: Params, env: Env, i: nat)
    requires ValidParams(p) && SelectObeys(env) && RepliesFit(p, env) && i < p.slots
    ensures |Run(p, env).state.workers| == p.slots
    ensures Run(p, env).state.workers[i].sock >= 0 ==> Run(p, env).state.workers[i].sock == env.accept(i)
  {
    StartInv(p, env);
    RunSocks(p, env, 0, Start(p, env));
    assert Start(p, env).workers[i].sock == env.accept(i);
  }

  // ---- What the master takes from the wire ---------------------------------------------------

  /**
   * The master believes the result and not its own record: the rows that the result names get its pixels,
   * every other byte stays, and the count grows by its row number.
   */
  lemma BelievesResult(p: Params, env: Env, round: nat, i: nat, s: State)
    requires Inv(p, s) && RepliesFit(p, env) && i < p.slots && s.workers[i].active
    ensures var incoming, t := Incoming(p, env, round, i, s.workers[i].chunk), CollectFrom(p, env, round, i, s);
            match incoming
            case Failed => t.image == s.image && t.completed == s.completed
            case Got(r, _) =>
              var lo, n := r.startRow * p.view.width % 0x1_0000_0000, r.numRows * p.view.width % 0x1_0000_0000;
              && |t.image| == |s.image| && n <= |r.pixels|
              && (forall k | 0 <= k < |s.image| ::
                    t.image[k] == if lo <= k < lo + n then r.pixels[k - lo] else s.image[k])
              && t.completed == (s.completed + r.numRows) % 0x1_0000_0000
  {
    HeldChunk(p, s, i);
    match Incoming(p, env, round, i, s.workers[i].chunk)
    case Failed =>
    case Got(r, _) =>
      forall k | 0 <= k < |s.image|
        ensures Paste(p, s.image, r)[k] == if Offset(p, r) <= k < Offset(p, r) + Count(p, r)
                                           then r.pixels[k - Offset(p, r)] else s.image[k]
      {
      }
  }

  // ---- Timeouts are fatal --------------------------------------------------------------------

  ghost predicate SomeoneLive(s: State) {
    exists j | 0 <= j < |s.workers| :: s.workers[j].sock >= 0
  }

  lemma {:induction false} DispatchDead(env: Env, round: nat, i: nat, s: State)
    requires i <= |s.workers| && !SomeoneLive(s)
    ensures Dispatch(env, round, i, s) == s
    decreases |s.workers| - i
  {
    if i < |s.workers| {
      DispatchDead(env, round, i + 1, s);
    }
  }

  /** Without a connected worker the next round stops, as it is. */
  lemma NobodyLeft(p: Params, env: Env, round: nat, s: State)
    requires Inv(p, s) && SelectObeys(env) && RepliesFit(p, env)
    requires !SomeoneLive(s)
    ensures Round(p, env, round, s) == Stop(AllDead, s)
  {
    DispatchDead(env, round, 0, s);
    assert Watched(s.workers) == {};
  }

  /** This round ends in the timeout branch. */
  predicate TimesOut(env: Env, round: nat, s: State) {
    var d := Dispatch(env, round, 0, s);
    Watched(d.workers) != {} && env.select(round, Watched(d.workers)) == TimedOut
  }

  /** Every connected worker is busy when `select` is called, so a timeout disconnects them all. */
  lemma TimeoutClosesAll(p: Params, env: Env, round: nat, s: State)
    requires Inv(p, s) && SelectObeys(env) && RepliesFit(p, env) && TimesOut(env, round, s)
    ensures var turn := Round(p, env, round, s);
            turn.Again? && turn.next.completed == s.completed && !SomeoneLive(turn.next)
  {
    DispatchKeeps(p, env, round, 0, s);
    var d := Dispatch(env, round, 0, s);
    DispatchEffect(env, round, 0, s);
    InvRoom(p, d);
    TimeoutEffect(0, d);
    var t := TimeoutSweep(0, d);
    forall j | 0 <= j < |t.workers|
      ensures t.workers[j].sock < 0
    {
      assert Swept(d.workers[j], t.workers[j]);
    }
  }

  /** The run from here takes the timeout branch in some round. */
  predicate EverTimesOut(p: Params, env: Env, round: nat, s: State)
    requires Inv(p, s) && SelectObeys(env) && RepliesFit(p, env)
    decreases Measure(s)
  {
    s.completed < p.view.height &&
    (TimesOut(env, round, s) ||
     var turn := Round(p, env, round, s);
     turn.Again? && EverTimesOut(p, env, round + 1, turn.next))
  }

  /**
   * The promised recovery from a timeout never happens: a run that takes the timeout branch always
   * aborts with rows missing, whatever the workers do.
   */
  lemma {:induction false} TimeoutIsFatal(p: Params, env: Env, round: nat, s: State)
    requires Inv(p, s) && SelectObeys(env) && RepliesFit(p, env)
    requires EverTimesOut(p, env, round, s)
    ensures RunFrom(p, env, round, s).exit == AllDead
    ensures RunFrom(p, env, round, s).state.completed < p.view.height
    decreases Measure(s)
  {
    var turn := Round(p, env, round, s);
    if TimesOut(env, round, s) {
      TimeoutClosesAll(p, env, round, s);
      NobodyLeft(p, env, round + 1, turn.next);
      assert RunFrom(p, env, round + 1, turn.next) == Outcome(AllDead, round + 1, turn.next);
    } else {
      TimeoutIsFatal(p, env, round + 1, turn.next);
    }
  }

  /** Workers connect and ask, but never answer within the timeout. */
  function Hanging(): Env {
    Env(i => i, (round, i) => true, (round, i) => true, (round, watched) => TimedOut, (round, i, sent) => [])
  }

  /** Such a run exists: it takes the timeout branch and aborts, however many workers there are. */
  lemma HangingAborts(p: Params)
    requires ValidParams(p) && p.slots > 0 && p.view.height > 0
    ensures SelectObeys(Hanging()) && Honest(p, Hanging()) && RepliesFit(p, Hanging()) && Inv(p, Start(p, Hanging()))
    ensures EverTimesOut(p, Hanging(), 0, Start(p, Hanging()))
    ensures Run(p, Hanging()).exit == AllDead && Run(p, Hanging()).state.completed < p.view.height
  {
    var env, s := Hanging(), Start(p, Hanging());
    HonestFits(p, env);
    StartInv(p, env);
    assert s.workers[0].sock == 0 && s.head < |s.queue|;
    DispatchFeeds(env, 0, 0, s, 0);
    assert TimesOut(env, 0, s);
    TimeoutIsFatal(p, env, 0, s);
  }

  // ---- Completion ----------------------------------------------------------------------------

  /** From this round on no request, send, select or receive fails and no select times out. */
  ghost predicate NoFailureFrom(p: Params, env: Env, first: nat) {
    && (forall round: nat, i: nat | round >= first :: env.request(round, i))
    && (forall round: nat, i: nat | round >= first :: env.send(round, i))
    && (forall round: nat, watched: set<nat> | round >= first && watched != {} :: env.select(round, watched).Ready?)
    && (forall round: nat, i: nat, sent: seq<Byte> | round >= first ::
          env.reply(round, i, sent) == WorkerReply(p.paint, sent))
  }

  /** With a chunk waiting, step 1 leaves at least one worker busy. */
  lemma {:induction false} DispatchFeeds(env: Env, round: nat, i: nat, s: State, j: nat)
    requires i <= j < |s.workers| && s.workers[j].sock >= 0 && s.head < |s.queue|
    requires env.request(round, j) && env.send(round, j)
    requires forall k | i <= k < j :: env.request(round, k) && env.send(round, k)
    ensures Watched(Dispatch(env, round, i, s).workers) != {}
    decreases |s.workers| - i
  {
    var t := DispatchTo(env, round, i, s);
    DispatchEffect(env, round, i + 1, t);
    if s.workers[i].sock >= 0 {
      assert i in Watched(Dispatch(env, round, i + 1, t).workers);
    } else {
      DispatchFeeds(env, round, i + 1, s, j);
    }
  }

  lemma BusyStaysWatched(env: Env, round: nat, s: State, j: nat)
    requires j < |s.workers| && s.workers[j].active && s.workers[j].sock >= 0
    ensures Watched(Dispatch(env, round, 0, s).workers) != {}
  {
    DispatchEffect(env, round, 0, s);
    assert j in Watched(Dispatch(env, round, 0, s).workers);
  }

  /** Some worker is busy after step 1 as long as rows are missing and somebody is connected. */
  lemma SomeoneBusy(p: Params, env: Env, round: nat, s: State)
    requires Faithful(p, s) && NoFailureFrom(p, env, round) && s.completed < p.view.height && SomeoneLive(s)
    ensures Watched(Dispatch(env, round, 0, s).workers) != {}
  {
    if j: nat :| j < |s.workers| && s.workers[j].active {
      BusyStaysWatched(env, round, s, j);
    } else {
      NothingHeld(s.workers);
      MissingRows(p, s);
      assert Pending(s) != [];
      var j :| 0 <= j < |s.workers| && s.workers[j].sock >= 0;
      DispatchFeeds(env, round, 0, s, j);
    }
  }

  // ---- What step 3 does to one worker --------------------------------------------------------

  /** A ready worker's result does not arrive whole. */
  predicate BreaksOff(p: Params, env: Env, round: nat, ready: set<nat>, w: Slot, j: nat) {
    w.sock >= 0 && w.active && j in ready && Incoming(p, env, round, j, w.chunk).Failed?
  }

  /** A record after step 3: a ready worker is closed when it breaks off, and idle otherwise. */
  function SlotAfter(p: Params, env: Env, round: nat, ready: set<nat>, w: Slot, j: nat): Slot {
    if BreaksOff(p, env, round, ready, w, j) then w.(sock := -1, active := false)
    else if w.sock >= 0 && w.active && j in ready then w.(active := false)
    else w
  }

  function SlotsAfter(p: Params, env: Env, round: nat, ready: set<nat>, ws: seq<Slot>, i: nat): (r: seq<Slot>)
    ensures |r| == |ws|
    ensures forall j | 0 <= j < |ws| :: r[j] == if i <= j then SlotAfter(p, env, round, ready, ws[j], j) else ws[j]
  {
    seq(|ws|, j requires 0 <= j < |ws| => if i <= j then SlotAfter(p, env, round, ready, ws[j], j) else ws[j])
  }

  lemma SlotsStep(p: Params, env: Env, round: nat, ready: set<nat>, ws: seq<Slot>, i: nat)
    requires i < |ws|
    ensures SlotsAfter(p, env, round, ready, ws, i)
            == SlotsAfter(p, env, round, ready, ws[i := SlotAfter(p, env, round, ready, ws[i], i)], i + 1)
  {
  }

  /** The chunks that step 3 puts back, in the order in which they are dispatched again. */
  function Returned(p: Params, env: Env, round: nat, ready: set<nat>, ws: seq<Slot>, i: nat): seq<Chunk>
    requires i <= |ws|
    decreases |ws| - i
  {
    if i == |ws| then []
    else Returned(p, env, round, ready, ws, i + 1) + Returns(p, env, round, ready, ws[i], i)
  }

  function Returns(p: Params, env: Env, round: nat, ready: set<nat>, w: Slot, i: nat): seq<Chunk> {
    if BreaksOff(p, env, round, ready, w, i) then [w.chunk] else []
  }

  lemma {:induction false} ReturnedHas(p: Params, env: Env, round: nat, ready: set<nat>, ws: seq<Slot>, i: nat, j: nat)
    requires i <= j < |ws| && BreaksOff(p, env, round, ready, ws[j], j)
    ensures ws[j].chunk in Returned(p, env, round, ready, ws, i)
    decreases |ws| - i
  {
    if i < j {
      ReturnedHas(p, env, round, ready, ws, i + 1, j);
    }
  }

  /** What reading a ready worker changes. */
  lemma CollectFromEffect(p: Params, env: Env, round: nat, ready: set<nat>, i: nat, s: State)
    requires Inv(p, s) && RepliesFit(p, env) && i < p.slots && IsReady(s, ready, i)
    ensures var t := CollectFrom(p, env, round, i, s);
            && t.workers == s.workers[i := SlotAfter(p, env, round, ready, s.workers[i], i)]
            && t.head <= |t.queue|
            && Pending(t) == Returns(p, env, round, ready, s.workers[i], i) + Pending(s)
            && (BreaksOff(p, env, round, ready, s.workers[i], i) ==> t.completed == s.completed)
  {
    HeldChunk(p, s, i);
    if BreaksOff(p, env, round, ready, s.workers[i], i) {
      RequeuePending(s, i);
    }
  }

  /** Step 3 for worker i, ready or not. */
  lemma CollectOne(p: Params, env: Env, round: nat, ready: set<nat>, i: nat, s: State) returns (t: State)
    requires Inv(p, s) && RepliesFit(p, env) && i < p.slots
    ensures Inv(p, t) && Collect(p, env, round, ready, i, s) == Collect(p, env, round, ready, i + 1, t)
    ensures t.workers == s.workers[i := SlotAfter(p, env, round, ready, s.workers[i], i)]
    ensures Pending(t) == Returns(p, env, round, ready, s.workers[i], i) + Pending(s)
    ensures !IsReady(s, ready, i) || BreaksOff(p, env, round, ready, s.workers[i], i) ==> t.completed == s.completed
  {
    if IsReady(s, ready, i) {
      CollectFromKeeps(p, env, round, i, s);
      CollectFromEffect(p, env, round, ready, i, s);
      t := CollectFrom(p, env, round, i, s);
    } else {
      t := s;
      assert [] + Pending(s) == Pending(s);
    }
  }

  /** The worker records after step 3. */
  lemma {:induction false} CollectSlots(p: Params, env: Env, round: nat, ready: set<nat>, i: nat, s: State)
    requires Inv(p, s) && RepliesFit(p, env) && i <= p.slots
    ensures Collect(p, env, round, ready, i, s).workers == SlotsAfter(p, env, round, ready, s.workers, i)
    decreases p.slots - i
  {
    if i < p.slots {
      var t := CollectOne(p, env, round, ready, i, s);
      CollectSlots(p, env, round, ready, i + 1, t);
      SlotsStep(p, env, round, ready, s.workers, i);
    }
  }

  /** What waits in a state. */
  predicate Waits(s: State, cs: seq<Chunk>) {
    s.head <= |s.queue| && Pending(s) == cs
  }

  /** Step 3 puts back exactly the chunks of the workers that break off, before the waiting ones. */
  lemma {:induction false} CollectPending(p: Params, env: Env, round: nat, ready: set<nat>, i: nat, s: State,
                                          ws: seq<Slot>, cs: seq<Chunk>)
    requires Inv(p, s) && RepliesFit(p, env) && i <= p.slots == |ws| && s.workers[i..] == ws[i..] && Waits(s, cs)
    ensures Waits(Collect(p, env, round, ready, i, s), Returned(p, env, round, ready, ws, i) + cs)
    decreases p.slots - i
  {
    if i < p.slots {
      var t := PendingOne(p, env, round, ready, i, s, ws, cs);
      CollectPending(p, env, round, ready, i + 1, t, ws, Returns(p, env, round, ready, ws[i], i) + cs);
      Grouped(Returned(p, env, round, ready, ws, i + 1), Returns(p, env, round, ready, ws[i], i), cs);
    }
  }

  lemma PendingOne(p: Params, env: Env, round: nat, ready: set<nat>, i: nat, s: State, ws: seq<Slot>, cs: seq<Chunk>)
    returns (t: State)
    requires Inv(p, s) && RepliesFit(p, env) && i < p.slots == |ws| && s.workers[i..] == ws[i..] && Waits(s, cs)
    ensures Inv(p, t) && Collect(p, env, round, ready, i, s) == Collect(p, env, round, ready, i + 1, t)
    ensures t.workers[i + 1..] == ws[i + 1..] && Waits(t, Returns(p, env, round, ready, ws[i], i) + cs)
  {
    t := CollectOne(p, env, round, ready, i, s);
    assert s.workers[i] == s.workers[i..][0] && ws[i] == ws[i..][0];
    assert t.workers[i + 1..] == s.workers[i + 1..] == s.workers[i..][1..] && ws[i + 1..] == ws[i..][1..];
  }

  lemma Grouped(a: seq<Chunk>, b: seq<Chunk>, c: seq<Chunk>)
    ensures a + (b + c) == a + b + c
  {
  }

  /** Step 3 of this round is reached with these ready descriptors. */
  predicate Collects(env: Env, round: nat, s: State, socks: set<nat>) {
    var watched := Watched(Dispatch(env, round, 0, s).workers);
    watched != {} && env.select(round, watched) == Ready(socks)
  }

  /** Worker j has a chunk when step 3 begins. */
  predicate Busy(env: Env, round: nat, s: State, j: nat) {
    j in Watched(Dispatch(env, round, 0, s).workers)
  }

  function ChunkOf(env: Env, round: nat, s: State, j: nat): Chunk
    requires Busy(env, round, s, j)
  {
    Dispatch(env, round, 0, s).workers[j].chunk
  }

  /** Worker j is ready but its result does not arrive whole. */
  predicate Disconnects(p: Params, env: Env, round: nat, s: State, socks: set<nat>, j: nat) {
    Busy(env, round, s, j) && j in socks && Incoming(p, env, round, j, ChunkOf(env, round, s, j)).Failed?
  }

  /** Worker j is busy and its result is not due yet or arrives whole. */
  predicate Survives(p: Params, env: Env, round: nat, s: State, socks: set<nat>, j: nat) {
    Busy(env, round, s, j) && (j in socks ==> Incoming(p, env, round, j, ChunkOf(env, round, s, j)).Got?)
  }

  /** As every connected worker is busy in step 3, the sockets left open are the survivors'. */
  lemma SlotSurvives(p: Params, env: Env, round: nat, s: State, socks: set<nat>, j: nat)
    requires j < |s.workers|
    ensures var w := Dispatch(env, round, 0, s).workers[j];
            SlotAfter(p, env, round, socks, w, j).sock >= 0 <==> Survives(p, env, round, s, socks, j)
  {
    var d := Dispatch(env, round, 0, s);
    BusyIfConnected(env, round, s, j);
    assert Busy(env, round, s, j) <==> d.workers[j].sock >= 0;
  }

  lemma BusyIfConnected(env: Env, round: nat, s: State, j: nat)
    requires j < |s.workers|
    ensures Dispatch(env, round, 0, s).workers[j].sock >= 0 ==> Dispatch(env, round, 0, s).workers[j].active
  {
    DispatchEffect(env, round, 0, s);
    var ws := Dispatch(env, round, 0, s).workers;
    assert 0 <= j < |ws|;
    assert ws[j].sock >= 0 ==> ws[j].active;
  }

  lemma CollectingRound(p: Params, env: Env, round: nat, s: State, socks: set<nat>)
    requires Inv(p, s) && SelectObeys(env) && RepliesFit(p, env) && Collects(env, round, s, socks)
    ensures var turn, ws := Round(p, env, round, s), Dispatch(env, round, 0, s).workers;
            turn.Again? && turn.next.workers == SlotsAfter(p, env, round, socks, ws, 0)
  {
    DispatchKeeps(p, env, round, 0, s);
    CollectSlots(p, env, round, socks, 0, Dispatch(env, round, 0, s));
  }

  /** After a round that reaches step 3, exactly the survivors are connected. */
  lemma LiveAfterRound(p: Params, env: Env, round: nat, s: State, socks: set<nat>)
    requires Inv(p, s) && SelectObeys(env) && RepliesFit(p, env) && Collects(env, round, s, socks)
    ensures var turn := Round(p, env, round, s);
            && turn.Again?
            && (forall j: nat | j < p.slots ::
                  turn.next.workers[j].sock >= 0 <==> Survives(p, env, round, s, socks, j))
  {
    var d := Dispatch(env, round, 0, s);
    CollectingRound(p, env, round, s, socks);
    forall j: nat | j < p.slots
      ensures SlotAfter(p, env, round, socks, d.workers[j], j).sock >= 0 <==> Survives(p, env, round, s, socks, j)
    {
      SlotSurvives(p, env, round, s, socks, j);
    }
  }

  /** Step 3 counts rows only for a worker that stays connected. */
  lemma {:induction false} CountedStays(p: Params, env: Env, round: nat, ready: set<nat>, i: nat, s: State)
    requires Inv(p, s) && RepliesFit(p, env) && i <= p.slots
    ensures var t := Collect(p, env, round, ready, i, s); t.completed != s.completed ==> SomeoneLive(t)
    decreases p.slots - i
  {
    if i < p.slots {
      if IsReady(s, ready, i) && !BreaksOff(p, env, round, ready, s.workers[i], i) {
        CollectSlots(p, env, round, ready, i, s);
        assert Collect(p, env, round, ready, i, s).workers[i].sock >= 0;
      } else {
        var t := CollectOne(p, env, round, ready, i, s);
        CountedStays(p, env, round, ready, i + 1, t);
      }
    }
  }

  lemma RoundCountsLive(p: Params, env: Env, round: nat, s: State)
    requires Inv(p, s) && SelectObeys(env) && RepliesFit(p, env)
    ensures var turn := Round(p, env, round, s);
            turn.Again? && turn.next.completed != s.completed ==> SomeoneLive(turn.next)
  {
    DispatchKeeps(p, env, round, 0, s);
    var d := Dispatch(env, round, 0, s);
    var watched := Watched(d.workers);
    if watched != {} && env.select(round, watched).Ready? {
      CountedStays(p, env, round, env.select(round, watched).socks, 0, d);
    }
  }

  /**
   * Whatever fails, a run that counts all rows of an image ends with some worker still connected: it was
   * neither lost nor told to terminate, and only sees its connection closed.
   */
  lemma {:induction false} SomeoneStaysConnected(p: Params, env: Env, round: nat, s: State)
    requires Inv(p, s) && SelectObeys(env) && RepliesFit(p, env) && s.completed < p.view.height
    ensures RunFrom(p, env, round, s).exit == AllRowsIn ==> SomeoneLive(RunFrom(p, env, round, s).state)
    decreases Measure(s)
  {
    RoundCountsLive(p, env, round, s);
    match Round(p, env, round, s)
    case Stop(_, _) =>
    case Again(next) =>
      assert RunFrom(p, env, round, s) == RunFrom(p, env, round + 1, next);
      if next.completed < p.view.height {
        SomeoneStaysConnected(p, env, round + 1, next);
      } else {
        assert RunFrom(p, env, round + 1, next).state == next;
      }
  }

  // ---- A chunk is in one place ---------------------------------------------------------------

  lemma {:induction false} SumMember(f: Chunk -> nat, cs: seq<Chunk>, c: Chunk)
    requires c in cs
    ensures Sum(f, cs) >= f(c)
  {
    if cs[0] != c {
      SumMember(f, cs[1..], c);
    }
  }

  /** A waiting chunk is not finished. */
  lemma WaitingNotFinished(p: Params, s: State, c: Chunk)
    requires Inv(p, s) && c in Pending(s)
    ensures c !in s.finished && c in AllChunks(p)
  {
    BooksMembers(p, s);
    ChunkFacts(p, c);
    if c in s.finished {
      BooksSum(Covers(c.start), p, s);
      SplitPartitions(0, p.view.height, p.size, c.start);
      SumMember(Covers(c.start), Pending(s), c);
      SumMember(Covers(c.start), s.finished, c);
    }
  }

  /**
   * The disconnect branch: the worker is closed, its chunk is dispatchable again and has not been
   * copied, so rows are still missing.
   */
  lemma DisconnectRequeues(p: Params, env: Env, round: nat, s: State, socks: set<nat>, i: nat)
    requires Inv(p, s) && SelectObeys(env) && RepliesFit(p, env) && i < p.slots
    requires Collects(env, round, s, socks) && Disconnects(p, env, round, s, socks, i)
    ensures var turn, c := Round(p, env, round, s), ChunkOf(env, round, s, i);
            && turn.Again? && turn.next.workers[i].sock < 0
            && c in Pending(turn.next) && c !in turn.next.finished && c in AllChunks(p)
  {
    LiveAfterRound(p, env, round, s, socks);
    DispatchKeeps(p, env, round, 0, s);
    var d := Dispatch(env, round, 0, s);
    CollectPending(p, env, round, socks, 0, d, d.workers, Pending(d));
    ReturnedHas(p, env, round, socks, d.workers, 0, i);
    WaitingNotFinished(p, Round(p, env, round, s).next, ChunkOf(env, round, s, i));
  }

  /** A round without failures disconnects nobody who is busy. */
  lemma RoundKeepsGoing(p: Params, env: Env, round: nat, s: State)
    requires Faithful(p, s) && Honest(p, env) && SelectObeys(env) && RepliesFit(p, env)
    requires NoFailureFrom(p, env, round) && s.completed < p.view.height && SomeoneLive(s)
    ensures Round(p, env, round, s).Again? && SomeoneLive(Round(p, env, round, s).next)
  {
    SomeoneBusy(p, env, round, s);
    DispatchKeeps(p, env, round, 0, s);
    var d := Dispatch(env, round, 0, s);
    var socks := env.select(round, Watched(d.workers)).socks;
    LiveAfterRound(p, env, round, s, socks);
    var j :| j in Watched(d.workers);
    HeldChunk(p, d, j);
    CompleteReply(p, d.workers[j].chunk);
    assert Survives(p, env, round, s, socks, j);
  }

  /**
   * After the last failure a run completes exactly when all rows are already in or some worker is
   * still connected at the top of the loop, whatever was lost and requeued before.
   */
  lemma {:induction false} CompletesIff(p: Params, env: Env, round: nat, s: State)
    requires Faithful(p, s) && Honest(p, env) && SelectObeys(env) && RepliesFit(p, env)
    requires NoFailureFrom(p, env, round)
    ensures RunFrom(p, env, round, s).exit == AllRowsIn <==> s.completed == p.view.height || SomeoneLive(s)
    ensures RunFrom(p, env, round, s).exit == AllRowsIn ==>
              && RunFrom(p, env, round, s).state.completed == p.view.height
              && RunFrom(p, env, round, s).state.image == FullImage(p.paint, p.view)
    ensures RunFrom(p, env, round, s).exit != AllRowsIn ==> RunFrom(p, env, round, s).exit == AllDead
    decreases Measure(s)
  {
    MissingRows(p, s);
    if s.completed == p.view.height {
      AllRowsDone(p, s);
    } else if SomeoneLive(s) {
      RoundKeepsGoing(p, env, round, s);
      RoundFaithful(p, env, round, s);
      CompletesIff(p, env, round + 1, Round(p, env, round, s).next);
    } else {
      NobodyLeft(p, env, round, s);
    }
  }

  /** A run without failures completes exactly when the image is empty or some worker connected. */
  lemma FailureFreeRun(p: Params, env: Env)
    requires ValidParams(p) && SelectObeys(env) && Honest(p, env) && NoFailureFrom(p, env, 0)
    ensures RepliesFit(p, env)
    ensures Run(p, env).state.completed == p.view.height
            <==> p.view.height == 0 || exists i: nat | i < p.slots :: env.accept(i) >= 0
  {
    HonestFits(p, env);
    StartFaithful(p, env);
    var s := Start(p, env);
    CompletesIff(p, env, 0, s);
    DistributedRender(p, env);
    assert SomeoneLive(s) <==> exists i: nat | i < p.slots :: env.accept(i) >= 0 by {
      forall i: nat | i < p.slots
        ensures s.workers[i].sock == env.accept(i)
      {
      }
    }
  }

  /** Once all rows are in, every chunk is finished. */
  lemma AllFinished(p: Params, s: State, c: Chunk)
    requires Faithful(p, s) && s.completed >= p.view.height && c in AllChunks(p)
    ensures c in s.finished
  {
    AllRowsDone(p, s);
    assert c in Books(s);
  }

  /**
   * Recovery through the disconnect branch: in a round where worker i breaks off, its chunk goes back
   * to the queue.  If nothing fails later, the image is completed, that chunk included, exactly when
   * some busy worker survived the round; otherwise everybody is gone and the run aborts.
   */
  lemma RecoversIff(p: Params, env: Env, round: nat, s: State, socks: set<nat>, i: nat)
    requires Faithful(p, s) && Honest(p, env) && SelectObeys(env) && RepliesFit(p, env)
    requires NoFailureFrom(p, env, round + 1) && i < p.slots && s.completed < p.view.height
    requires Collects(env, round, s, socks) && Disconnects(p, env, round, s, socks, i)
    ensures var o, c := RunFrom(p, env, round, s), ChunkOf(env, round, s, i);
            && (o.exit == AllRowsIn <==> exists j: nat | j < p.slots :: Survives(p, env, round, s, socks, j))
            && (o.exit == AllRowsIn ==> o.state.image == FullImage(p.paint, p.view) && c in o.state.finished)
            && (o.exit != AllRowsIn ==> o.exit == AllDead)
  {
    var c, next := ChunkOf(env, round, s, i), Round(p, env, round, s).next;
    DisconnectRequeues(p, env, round, s, socks, i);
    LiveAfterRound(p, env, round, s, socks);
    RoundFaithful(p, env, round, s);
    FinishesWaiting(p, env, round + 1, next, c);
    assert RunFrom(p, env, round, s) == RunFrom(p, env, round + 1, next);
  }

  /** With a chunk waiting and no failure ahead, the run finishes that chunk exactly when somebody is connected. */
  lemma FinishesWaiting(p: Params, env: Env, round: nat, s: State, c: Chunk)
    requires Faithful(p, s) && Honest(p, env) && SelectObeys(env) && RepliesFit(p, env)
    requires NoFailureFrom(p, env, round) && c in Pending(s) && c in AllChunks(p)
    ensures var o := RunFrom(p, env, round, s);
            && (o.exit == AllRowsIn <==> SomeoneLive(s))
            && (o.exit == AllRowsIn ==> o.state.image == FullImage(p.paint, p.view) && c in o.state.finished)
            && (o.exit != AllRowsIn ==> o.exit == AllDead)
  {
    StillMissing(p, s, c);
    CompletesIff(p, env, round, s);
    RunFaithful(p, env, round, s);
    if RunFrom(p, env, round, s).exit == AllRowsIn {
      AllFinished(p, RunFrom(p, env, round, s).state, c);
    }
  }

  lemma StillMissing(p: Params, s: State, c: Chunk)
    requires Faithful(p, s) && c in Pending(s)
    ensures s.completed < p.view.height
  {
    if s.completed >= p.view.height {
      AllRowsDone(p, s);
    }
  }

  // ---- Runs that meet the assumptions --------------------------------------------------------

  /** Nothing ever fails, except that worker 0 may break off its first reply. */
  function OneBreak(p: Params, breaks: bool): Env {
    Env(i => i, (round, i) => true, (round, i) => true,
        (round, watched) => if watched == {} then TimedOut else Ready(watched),
        (round, i, sent) => if breaks && round == 0 && i == 0 then [] else WorkerReply(p.paint, sent))
  }

  lemma OneBreakAssumptions(p: Params, breaks: bool)
    requires ValidParams(p)
    ensures SelectObeys(OneBreak(p, breaks)) && Honest(p, OneBreak(p, breaks)) && RepliesFit(p, OneBreak(p, breaks))
    ensures NoFailureFrom(p, OneBreak(p, breaks), if breaks then 1 else 0)
  {
    assert Honest(p, OneBreak(p, breaks));
    HonestFits(p, OneBreak(p, breaks));
  }

  /** A run without failures: it completes the image. */
  lemma UnbrokenRun(p: Params)
    requires ValidParams(p) && p.slots > 0
    ensures SelectObeys(OneBreak(p, false)) && RepliesFit(p, OneBreak(p, false))
    ensures Run(p, OneBreak(p, false)).state.image == FullImage(p.paint, p.view)
  {
    var env := OneBreak(p, false);
    OneBreakAssumptions(p, false);
    assert env.accept(0) >= 0;
    FailureFreeRun(p, env);
    DistributedRender(p, env);
  }

  /** With the queue drained step 1 makes nobody busy. */
  lemma {:induction false} DrainedDispatch(env: Env, round: nat, i: nat, s: State)
    requires i <= |s.workers| && s.head >= |s.queue|
    ensures forall j | 0 <= j < |s.workers| :: Dispatch(env, round, i, s).workers[j].active ==> s.workers[j].active
    decreases |s.workers| - i
  {
    if i < |s.workers| {
      DrainedDispatch(env, round, i + 1, DispatchTo(env, round, i, s));
    }
  }

  lemma TwoChunksIff(p: Params)
    requires ValidParams(p) && p.view.height > 0
    ensures AllChunks(p) != [] && (|AllChunks(p)| > 1 <==> p.view.height > p.size)
  {
    var rows := if p.size <= p.view.height then p.size else p.view.height;
    var rest := Split(rows, p.view.height, p.size);
    assert AllChunks(p) == [Chunk(0, rows)] + rest;
    assert rest == [] <==> rows >= p.view.height;
  }

  /** Round 0 hands the first chunk to worker 0, and the second, if there is one, to worker 1. */
  lemma FirstDispatch(p: Params)
    requires ValidParams(p) && p.slots >= 2 && p.view.height > 0
    ensures var env, s := OneBreak(p, true), Start(p, OneBreak(p, true));
            && Busy(env, 0, s, 0)
            && (p.view.height > p.size ==> Busy(env, 0, s, 1))
            && (p.view.height <= p.size ==> forall j: nat | Busy(env, 0, s, j) :: j == 0)
  {
    var env, s := OneBreak(p, true), Start(p, OneBreak(p, true));
    TwoChunksIff(p);
    var s1 := SendTo(s, 0);
    assert DispatchTo(env, 0, 0, s) == s1;
    DispatchEffect(env, 0, 1, s1);
    if p.view.height > p.size {
      var s2 := SendTo(s1, 1);
      assert DispatchTo(env, 0, 1, s1) == s2;
      DispatchEffect(env, 0, 2, s2);
    } else {
      DrainedDispatch(env, 0, 1, s1);
    }
  }

  /**
   * When worker 0 breaks off its first reply and nothing else ever fails, the image is completed
   * exactly when it has a second chunk.  Otherwise all workers but worker 0 were terminated as soon as
   * the queue was empty, and nobody is left to take its chunk: healthy workers are not enough.
   */
  lemma HealthyWorkerNotEnough(p: Params)
    requires ValidParams(p) && p.slots >= 2 && p.view.height > 0
    ensures SelectObeys(OneBreak(p, true)) && RepliesFit(p, OneBreak(p, true))
    ensures var o := Run(p, OneBreak(p, true));
            && (o.exit == AllRowsIn <==> p.view.height > p.size)
            && (o.exit == AllRowsIn ==> o.state.image == FullImage(p.paint, p.view))
            && (p.view.height <= p.size ==> o.exit == AllDead)
  {
    var env, s := OneBreak(p, true), Start(p, OneBreak(p, true));
    OneBreakAssumptions(p, true);
    StartFaithful(p, env);
    FirstDispatch(p);
    DispatchKeeps(p, env, 0, 0, s);
    var d := Dispatch(env, 0, 0, s);
    var socks := Watched(d.workers);
    assert Disconnects(p, env, 0, s, socks, 0);
    if p.view.height > p.size {
      HeldChunk(p, d, 1);
      CompleteReply(p, d.workers[1].chunk);
      assert Survives(p, env, 0, s, socks, 1);
    }
    RecoversIff(p, env, 0, s, socks, 0);
  }
}
