/**
 * The asynchronous system of `Session` projects to the master's run of `Scheduler`: what the
 * interleaving decides is only which results are ready in which round.
 */
module Projection {
  import opened Bytes
  import opened Wire
  import opened Render
  import opened Scheduler
  import opened Session
  import Runs

  /** Nothing fails, and `select` reports the given sets, round by round. */
  function Scripted(p: Params, socks: seq<int>, readies: seq<set<nat>>): Env {
    Env((i: nat) => if i < |socks| then socks[i] else -1,
        (round: nat, i: nat) => true,
        (round: nat, i: nat) => true,
        (round: nat, watched: set<nat>) =>
          if round < |readies| && readies[round] != {} && readies[round] <= watched then Ready(readies[round])
          else if watched == {} then TimedOut
          else Ready(watched),
        (round: nat, i: nat, sent: seq<Byte>) => WorkerReply(p.paint, sent))
  }

  lemma ScriptedAssumptions(p: Params, socks: seq<int>, readies: seq<set<nat>>)
    requires ValidParams(p)
    ensures var env := Scripted(p, socks, readies);
            SelectObeys(env) && Runs.Honest(p, env) && RepliesFit(p, env)
  {
    assert Runs.Honest(p, Scripted(p, socks, readies));
    Runs.HonestFits(p, Scripted(p, socks, readies));
  }

  /** The ready sets that `select` returns along a schedule. */
  ghost function ReadySets(g: System, turns: seq<Actor>): seq<set<nat>>
    requires SessionInv(g) && Schedule(g, turns)
    decreases |turns|
  {
    if turns == [] then []
    else
      StepKeeps(g, turns[0]);
      (if g.pc == Selecting && turns[0] == TheMaster then [ReadySet(g)] else [])
      + ReadySets(Step(g, turns[0]), turns[1..])
  }

  /** No call fails, and replies are complete. */
  ghost predicate Smooth(p: Params, env: Env)
    requires p.size > 0
  {
    && SelectObeys(env) && RepliesFit(p, env)
    && (forall round: nat, i: nat :: env.request(round, i) && env.send(round, i))
    && (forall round: nat, i: nat, sent: seq<Byte> :: env.reply(round, i, sent) == WorkerReply(p.paint, sent))
  }

  // ---- Program points ------------------------------------------------------------------------

  /** How the run ends when step 1 of this round has left state d. */
  ghost function AfterDispatch(p: Params, env: Env, round: nat, d: State): Outcome
    requires Inv(p, d) && SelectObeys(env) && RepliesFit(p, env)
  {
    if Watched(d.workers) == {} then Outcome(AllDead, round, d)
    else
      match env.select(round, Watched(d.workers))
      case SelectError => Outcome(SelectBroke, round, d)
      case TimedOut =>
        InvRoom(p, d);
        TimeoutKeeps(p, 0, d);
        RunFrom(p, env, round + 1, TimeoutSweep(0, d))
      case Ready(socks) => RunFrom(p, env, round + 1, Collect(p, env, round, socks, 0, d))
  }

  /** How the run ends from the master's program point in this round and state. */
  ghost function From(p: Params, env: Env, round: nat, pc: MasterPc, s: State): Outcome
    requires Inv(p, s) && SelectObeys(env) && RepliesFit(p, env)
  {
    match pc
    case Serving(i) =>
      if i > p.slots then Outcome(AllDead, round, s)
      else
        DispatchKeeps(p, env, round, i, s);
        AfterDispatch(p, env, round, Dispatch(env, round, i, s))
    case Selecting => AfterDispatch(p, env, round, s)
    case Collecting(i, ready) =>
      if i > p.slots then Outcome(AllDead, round, s)
      else RunFrom(p, env, round + 1, Collect(p, env, round, ready, i, s))
    case Finished => Outcome(AllRowsIn, round, s)
    case _ => Outcome(AllDead, round, s)
  }

  /** With rows missing, a round starts with step 1 for worker 0. */
  lemma FromTop(p: Params, env: Env, round: nat, s: State)
    requires Inv(p, s) && SelectObeys(env) && RepliesFit(p, env) && s.completed < p.view.height
    ensures RunFrom(p, env, round, s) == From(p, env, round, Serving(0), s)
  {
    DispatchKeeps(p, env, round, 0, s);
    var d := Dispatch(env, round, 0, s);
    if Watched(d.workers) != {} && env.select(round, Watched(d.workers)) == TimedOut {
      InvRoom(p, d);
      TimeoutKeeps(p, 0, d);
    }
  }

  /** The system and the scheduler's state agree on queue, workers and counter. */
  ghost predicate Agree(p: Params, g: System, s: State) {
    && Inv(p, s)
    && (g.pc != Finished ==> g.slots == s.workers)
    && g.pending == Pending(s)
    && g.done == s.completed
    && g.height == p.view.height
    && |g.slots| == p.slots
  }

  /** A round ends when the master leaves step 3. */
  function RoundAfter(round: nat, pc: MasterPc, after: MasterPc): nat {
    if pc.Collecting? && !after.Collecting? then round + 1 else round
  }

  // ---- One step of the master ----------------------------------------------------------------

  lemma ServeProjects(p: Params, env: Env, round: nat, g: System, s: State, i: nat) returns (t: State)
    requires SessionInv(g) && Agree(p, g, s) && Smooth(p, env)
    requires g.pc == Serving(i) && i < p.slots && Idle(g.slots[i]) && g.peers[i].up != Empty
    ensures Agree(p, Serve(g, i), t) && t == DispatchTo(env, round, i, s)
  {
    assert LinkOk(g.slots[i], g.peers[i]);
    DispatchToKeeps(p, env, round, i, s);
    t := DispatchTo(env, round, i, s);
    if g.pending != [] {
      SendPending(s, i);
    }
  }

  lemma TakeProjects(p: Params, env: Env, round: nat, g: System, s: State, i: nat, ready: set<nat>) returns (t: State)
    requires SessionInv(g) && Agree(p, g, s) && Smooth(p, env) && g.pc == Collecting(i, ready)
    requires i < p.slots && g.slots[i].sock >= 0 && g.slots[i].active && i in ready
    ensures Agree(p, Take(g, i, ready), t) && t == CollectFrom(p, env, round, i, s)
  {
    var c := s.workers[i].chunk;
    HeldChunk(p, s, i);
    CompleteAccept(p, env, round, i, s);
    CollectFromKeeps(p, env, round, i, s);
    t := CollectFrom(p, env, round, i, s);
    TakenChunk(g, i, ready);
  }

  /** A complete reply is accepted with the rows of the worker's chunk. */
  lemma CompleteAccept(p: Params, env: Env, round: nat, i: nat, s: State)
    requires Inv(p, s) && Smooth(p, env) && i < p.slots && s.workers[i].active
    ensures var t := CollectFrom(p, env, round, i, s);
            && t.queue == s.queue && t.head == s.head
            && t.workers == s.workers[i := s.workers[i].(active := false)]
            && t.completed == Wrap32(s.completed + s.workers[i].chunk.rows)
  {
    HeldChunk(p, s, i);
    Runs.CompleteReply(p, s.workers[i].chunk);
    Runs.TaskForFits(p, s.workers[i].chunk);
  }

  /** The asynchronous master reads the same chunk, and the count stays below the height. */
  lemma TakenChunk(g: System, i: nat, ready: set<nat>)
    requires SessionInv(g) && g.pc == Collecting(i, ready) && i < |g.slots| && i in ready
    ensures var t, c := Take(g, i, ready), g.slots[i].chunk;
            && t.slots == g.slots[i := g.slots[i].(active := false)] && t.pending == g.pending
            && t.done == g.done + c.rows <= g.height && t.height == g.height && t.pc == Collecting(i + 1, ready)
  {
    assert LinkOk(g.slots[i], g.peers[i]);
    TakeKeeps(g, i, ready);
  }

  lemma ServingProjects(p: Params, env: Env, round: nat, g: System, s: State, i: nat) returns (t: State)
    requires SessionInv(g) && Agree(p, g, s) && Smooth(p, env) && MasterEnabled(g) && g.pc == Serving(i)
    ensures Agree(p, MasterStep(g), t) && !MasterStep(g).pc.Collecting?
    ensures From(p, env, round, MasterStep(g).pc, t) == From(p, env, round, g.pc, s)
  {
    if i < p.slots && Idle(g.slots[i]) {
      t := ServeProjects(p, env, round, g, s, i);
      assert LinkOk(g.slots[i], g.peers[i]);
      assert MasterStep(g).pc == Serving(i + 1);
      assert Dispatch(env, round, i, s) == Dispatch(env, round, i + 1, t);
    } else {
      t := s;
      if i < p.slots {
        assert DispatchTo(env, round, i, s) == s;
        assert Dispatch(env, round, i, s) == Dispatch(env, round, i + 1, s);
      }
    }
  }

  lemma CollectedOne(p: Params, env: Env, round: nat, ready: set<nat>, i: nat, s: State)
    requires Inv(p, s) && RepliesFit(p, env) && i < p.slots
    ensures IsReady(s, ready, i) ==> Inv(p, CollectFrom(p, env, round, i, s))
    ensures Collect(p, env, round, ready, i, s)
            == Collect(p, env, round, ready, i + 1,
                       if IsReady(s, ready, i) then CollectFrom(p, env, round, i, s) else s)
  {
    if IsReady(s, ready, i) {
      CollectFromKeeps(p, env, round, i, s);
    }
  }

  lemma FromNext(p: Params, env: Env, round: nat, ready: set<nat>, i: nat, s: State, t: State)
    requires Inv(p, s) && Inv(p, t) && SelectObeys(env) && RepliesFit(p, env) && i < p.slots
    requires Collect(p, env, round, ready, i, s) == Collect(p, env, round, ready, i + 1, t)
    ensures From(p, env, round, Collecting(i + 1, ready), t) == From(p, env, round, Collecting(i, ready), s)
  {
  }

  lemma SkippingProjects(p: Params, env: Env, round: nat, g: System, s: State, i: nat, ready: set<nat>)
    requires SessionInv(g) && Agree(p, g, s) && g.pc == Collecting(i, ready) && i < p.slots && !IsReady(s, ready, i)
    ensures Agree(p, MasterStep(g), s) && MasterStep(g).pc == Collecting(i + 1, ready)
  {
    assert MasterStep(g) == g.(pc := Collecting(i + 1, ready));
  }

  lemma TakingProjects(p: Params, env: Env, round: nat, g: System, s: State, i: nat, ready: set<nat>)
    returns (t: State)
    requires SessionInv(g) && Agree(p, g, s) && Smooth(p, env) && g.pc == Collecting(i, ready) && i < p.slots
    requires IsReady(s, ready, i)
    ensures Agree(p, MasterStep(g), t) && MasterStep(g).pc == Collecting(i + 1, ready)
    ensures t == CollectFrom(p, env, round, i, s)
  {
    TakenChunk(g, i, ready);
    t := TakeProjects(p, env, round, g, s, i, ready);
    assert MasterStep(g) == Take(g, i, ready);
  }

  lemma CollectingProjects(p: Params, env: Env, round: nat, g: System, s: State, i: nat, ready: set<nat>)
    returns (t: State)
    requires SessionInv(g) && Agree(p, g, s) && Smooth(p, env) && g.pc == Collecting(i, ready) && i < p.slots
    ensures Agree(p, MasterStep(g), t) && MasterStep(g).pc == Collecting(i + 1, ready)
    ensures From(p, env, round, Collecting(i + 1, ready), t) == From(p, env, round, g.pc, s)
  {
    t := s;
    if IsReady(s, ready, i) {
      t := TakingProjects(p, env, round, g, s, i, ready);
    } else {
      SkippingProjects(p, env, round, g, s, i, ready);
    }
    CollectedOne(p, env, round, ready, i, s);
    FromNext(p, env, round, ready, i, s, t);
  }

  lemma RoundEnds(p: Params, env: Env, round: nat, g: System, s: State, ready: set<nat>)
    requires SessionInv(g) && Agree(p, g, s) && Smooth(p, env) && g.pc == Collecting(p.slots, ready)
    ensures Agree(p, MasterStep(g), s) && !MasterStep(g).pc.Collecting?
    ensures From(p, env, round + 1, MasterStep(g).pc, s) == From(p, env, round, g.pc, s)
  {
    assert Collect(p, env, round, ready, p.slots, s) == s;
    if g.done < g.height {
      FromTop(p, env, round + 1, s);
    }
  }

  lemma SelectingProjects(p: Params, env: Env, round: nat, g: System, s: State)
    requires SessionInv(g) && Agree(p, g, s) && Smooth(p, env) && MasterEnabled(g) && g.pc == Selecting
    requires env.select(round, Watched(g.slots)) == Ready(ReadySet(g))
    ensures Agree(p, MasterStep(g), s) && MasterStep(g).pc == Collecting(0, ReadySet(g))
    ensures From(p, env, round, MasterStep(g).pc, s) == From(p, env, round, g.pc, s)
  {
    SelectKeeps(g);
  }

  /** The master's step from this program point continues the same run. */
  lemma MasterProjects(p: Params, env: Env, round: nat, g: System, s: State) returns (next: nat, t: State)
    requires SessionInv(g) && Agree(p, g, s) && Smooth(p, env) && MasterEnabled(g)
    requires g.pc == Selecting ==> env.select(round, Watched(g.slots)) == Ready(ReadySet(g))
    ensures Agree(p, MasterStep(g), t)
    ensures From(p, env, next, MasterStep(g).pc, t) == From(p, env, round, g.pc, s)
    ensures next == RoundAfter(round, g.pc, MasterStep(g).pc)
  {
    next, t := round, s;
    match g.pc
    case Serving(i) =>
      t := ServingProjects(p, env, round, g, s, i);
    case Selecting =>
      SelectingProjects(p, env, round, g, s);
    case Collecting(i, ready) =>
      if i >= p.slots {
        next := round + 1;
        RoundEnds(p, env, round, g, s, ready);
      } else {
        t := CollectingProjects(p, env, round, g, s, i, ready);
      }
    case _ =>
  }

  // ---- Schedules -----------------------------------------------------------------------------

  /** The round of the next `select`. */
  function NextSelect(round: nat, pc: MasterPc): nat {
    if pc.Collecting? then round + 1 else round
  }

  /** From its next `select` on, the script holds what the rest of the schedule will see. */
  ghost predicate Ahead(readies: seq<set<nat>>, round: nat, g: System, turns: seq<Actor>)
    requires SessionInv(g) && Schedule(g, turns)
  {
    var n := NextSelect(round, g.pc);
    n <= |readies| && readies[n..] == ReadySets(g, turns)
  }

  lemma ReadySetSelected(p: Params, socks: seq<int>, readies: seq<set<nat>>, round: nat, g: System)
    requires SessionInv(g) && MasterEnabled(g) && g.pc == Selecting
    requires round < |readies| && readies[round] == ReadySet(g)
    ensures Scripted(p, socks, readies).select(round, Watched(g.slots)) == Ready(ReadySet(g))
  {
    SelectKeeps(g);
  }

  /** One step of any actor: the run that the master is in stays the same. */
  lemma StepProjects(p: Params, socks: seq<int>, readies: seq<set<nat>>, round: nat, g: System, s: State,
                     turns: seq<Actor>) returns (next: nat, t: State)
    requires SessionInv(g) && turns != [] && Schedule(g, turns) && Agree(p, g, s) && Ahead(readies, round, g, turns)
    requires Smooth(p, Scripted(p, socks, readies))
    ensures SessionInv(Step(g, turns[0])) && Schedule(Step(g, turns[0]), turns[1..])
    ensures Agree(p, Step(g, turns[0]), t) && Ahead(readies, next, Step(g, turns[0]), turns[1..])
    ensures From(p, Scripted(p, socks, readies), next, Step(g, turns[0]).pc, t)
            == From(p, Scripted(p, socks, readies), round, g.pc, s)
  {
    StepKeeps(g, turns[0]);
    AheadStep(readies, round, g, turns);
    if turns[0] == TheMaster {
      if g.pc == Selecting {
        ReadySetSelected(p, socks, readies, round, g);
      }
      next, t := MasterProjects(p, Scripted(p, socks, readies), round, g, s);
    } else {
      next, t := round, s;
    }
  }

  lemma ConsumeFirst(readies: seq<set<nat>>, n: nat, first: set<nat>, rest: seq<set<nat>>)
    requires n <= |readies| && readies[n..] == [first] + rest
    ensures n < |readies| && readies[n] == first && readies[n + 1..] == rest
  {
    assert readies[n] == readies[n..][0] && readies[n + 1..] == readies[n..][1..];
  }

  /** The script stays in step with the schedule. */
  lemma AheadStep(readies: seq<set<nat>>, round: nat, g: System, turns: seq<Actor>)
    requires SessionInv(g) && turns != [] && Schedule(g, turns) && Ahead(readies, round, g, turns)
    ensures SessionInv(Step(g, turns[0])) && Schedule(Step(g, turns[0]), turns[1..])
    ensures Ahead(readies, RoundAfter(round, g.pc, Step(g, turns[0]).pc), Step(g, turns[0]), turns[1..])
    ensures g.pc == Selecting && turns[0] == TheMaster ==> round < |readies| && readies[round] == ReadySet(g)
  {
    StepKeeps(g, turns[0]);
    var rest := ReadySets(Step(g, turns[0]), turns[1..]);
    if turns[0] == TheMaster && g.pc == Selecting {
      SelectKeeps(g);
      ConsumeFirst(readies, round, ReadySet(g), rest);
    } else {
      assert [] + rest == rest;
      SelectLater(g, turns[0], round);
    }
  }

  /** Only a `select` brings the next one nearer. */
  lemma SelectLater(g: System, a: Actor, round: nat)
    requires SessionInv(g) && Enabled(g, a) && !(g.pc == Selecting && a == TheMaster)
    ensures NextSelect(RoundAfter(round, g.pc, Step(g, a).pc), Step(g, a).pc) == NextSelect(round, g.pc)
  {
    if a == TheMaster && g.pc.Serving? && g.pc.next < |g.slots| {
      assert LinkOk(g.slots[g.pc.next], g.peers[g.pc.next]);
    }
  }

  lemma {:induction false} ScheduleProjects(p: Params, socks: seq<int>, readies: seq<set<nat>>, round: nat,
                                            g: System, s: State, turns: seq<Actor>) returns (next: nat, t: State)
    requires SessionInv(g) && Schedule(g, turns) && Agree(p, g, s) && Ahead(readies, round, g, turns)
    requires Smooth(p, Scripted(p, socks, readies))
    ensures Agree(p, After(g, turns), t)
    ensures From(p, Scripted(p, socks, readies), next, After(g, turns).pc, t)
            == From(p, Scripted(p, socks, readies), round, g.pc, s)
    decreases |turns|
  {
    if turns == [] {
      next, t := round, s;
    } else {
      var mid, u := StepProjects(p, socks, readies, round, g, s, turns);
      next, t := ScheduleProjects(p, socks, readies, mid, Step(g, turns[0]), u, turns[1..]);
    }
  }

  lemma BeginAgrees(p: Params, socks: seq<int>, readies: seq<set<nat>>)
    requires ValidParams(p) && |socks| == p.slots
    ensures Agree(p, Begin(p.view.height, p.size, socks), Start(p, Scripted(p, socks, readies)))
  {
    StartInv(p, Scripted(p, socks, readies));
    var g, s := Begin(p.view.height, p.size, socks), Start(p, Scripted(p, socks, readies));
    assert g.slots == s.workers;
    assert Pending(s) == s.queue;
  }

  /**
   * A crash-free interleaving that finishes is a run of the scheduler with the same ready sets, so the
   * image it leaves is the sequential one.
   */
  lemma SessionRenders(p: Params, socks: seq<int>, turns: seq<Actor>)
    requires ValidParams(p) && |socks| == p.slots && p.view.height > 0
    requires exists i :: 0 <= i < |socks| && socks[i] >= 0
    ensures SessionInv(Begin(p.view.height, p.size, socks))
    ensures var g := Begin(p.view.height, p.size, socks);
            Schedule(g, turns) && After(g, turns).pc == Finished ==>
              var env := Scripted(p, socks, ReadySets(g, turns));
              && SelectObeys(env) && RepliesFit(p, env)
              && Runs.Run(p, env).exit == AllRowsIn
              && Runs.Run(p, env).state.completed == After(g, turns).done
              && Runs.Run(p, env).state.image == FullImage(p.paint, p.view)
  {
    var g := Begin(p.view.height, p.size, socks);
    BeginInv(p.view.height, p.size, socks);
    if Schedule(g, turns) && After(g, turns).pc == Finished {
      var readies := ReadySets(g, turns);
      var env := Scripted(p, socks, readies);
      ScriptedAssumptions(p, socks, readies);
      BeginAgrees(p, socks, readies);
      StartInv(p, env);
      var s := Start(p, env);
      var next, t := ScheduleProjects(p, socks, readies, 0, g, s, turns);
      FromTop(p, env, 0, s);
      assert Runs.Run(p, env) == Outcome(AllRowsIn, next, t);
      Runs.DistributedRender(p, env);
    }
  }

  // ---- The bytes of a message queue ----------------------------------------------------------

  function MsgOf(p: Params, m: Msg): Message {
    match m
    case RequestMsg => Request
    case TaskMsg(c) => Work(TaskFor(p, c))
    case TerminateMsg => Terminate
    case ResultMsg(c) => Reply(ResultFor(p.paint, TaskFor(p, c)))
  }

  /** What the connection holds when the queue holds these messages. */
  function QueueBytes(p: Params, q: Fifo): seq<Byte> {
    match q
    case Empty => []
    case Next(first, rest) => Encode(MsgOf(p, first)) + QueueBytes(p, rest)
  }

  /** Sending a message appends its bytes. */
  lemma {:induction false} PushBytes(p: Params, q: Fifo, m: Msg)
    ensures QueueBytes(p, q.Push(m)) == QueueBytes(p, q) + Encode(MsgOf(p, m))
  {
    match q
    case Empty =>
    case Next(first, rest) =>
      PushBytes(p, rest, m);
      assert Encode(MsgOf(p, first)) + (QueueBytes(p, rest) + Encode(MsgOf(p, m)))
          == Encode(MsgOf(p, first)) + QueueBytes(p, rest) + Encode(MsgOf(p, m));
  }

  /** The first message, if it carries a chunk, carries one of the image's. */
  predicate FirstFits(p: Params, q: Fifo)
    requires p.size > 0
  {
    match q
    case Next(TaskMsg(c), _) => c in AllChunks(p)
    case Next(ResultMsg(c), _) => c in AllChunks(p)
    case _ => true
  }

  /**
   * Receiving from the bytes of a queue takes its first message, and fails exactly on a message meant for
   * another receiver.
   */
  lemma QueueReads(p: Params, q: Fifo, call: Receiver)
    requires ValidParams(p) && q.Next? && FirstFits(p, q)
    ensures Read(call, QueueBytes(p, q))
            == if call == ReceiverOf(MsgOf(p, q.first)) then Got(MsgOf(p, q.first), QueueBytes(p, q.rest)) else Failed
  {
    var m := MsgOf(p, q.first);
    if call != ReceiverOf(m) {
      WrongReceiverFails(m, call, QueueBytes(p, q.rest));
    } else {
      if q.first.ResultMsg? {
        Runs.CompleteReply(p, q.first.chunk);
      }
      ReadEncoded(m, QueueBytes(p, q.rest));
    }
  }

  /** Along a run both queues of every connection fit. */
  lemma LinkFits(p: Params, g: System, s: State, i: nat)
    requires SessionInv(g) && Agree(p, g, s) && i < p.slots
    ensures FirstFits(p, g.peers[i].up) && FirstFits(p, g.peers[i].down)
  {
    assert LinkOk(g.slots[i], g.peers[i]);
    if g.pc != Finished && g.slots[i].active {
      HeldChunk(p, s, i);
    }
  }
}
