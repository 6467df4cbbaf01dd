/** The master program: arrays updated in place, proved to compute the functions of `Scheduler`. */
module Masters {
  import opened Bytes
  import opened Transport
  import opened Wire
  import opened Render
  import opened Chunks
  import opened Scheduler
  import Runs

  class Master {
    const p: Params
    const env: Env
    /** How many bytes each `recv` of a result moves, less one. */
    const pieces: nat -> nat
    const queue: array<Chunk>
    const workers: array<Slot>
    const image: array<Byte>
    var queueHead: nat
    var completedRows: U32
    ghost var finished: seq<Chunk>
    ghost var copied: seq<Chunk>

    /** The abstract state of the scheduler functions. */
    ghost function Abstract(): State
      reads this, queue, workers, image
    {
      State(queue[..], queueHead, workers[..], image[..], completedRows, finished, copied)
    }

    /** Build the chunk queue, accept the workers, clear the image. */
    constructor (p: Params, env: Env, pieces: nat -> nat)
      requires ValidParams(p)
      ensures this.p == p && this.env == env
      ensures fresh(queue) && fresh(workers) && fresh(image)
      ensures Abstract() == Start(p, env)
    {
      this.p := p;
      this.env := env;
      this.pieces := pieces;
      var chunks := BuildQueue(p.view.height, p.size);
      queue := chunks;
      workers := new Slot[p.slots](i => Slot(-1, false, Chunk(0, 0)));
      image := new Byte[p.view.width * p.view.height](i => 0);
      queueHead := 0;
      completedRows := 0;
      finished, copied := [], [];
      new;
      for i := 0 to p.slots
        modifies workers
        invariant forall j | 0 <= j < i :: workers[j] == Slot(env.accept(j), false, Chunk(0, 0))
        invariant forall j | i <= j < p.slots :: workers[j] == Slot(-1, false, Chunk(0, 0))
      {
        var sock := env.accept(i);
        workers[i] := workers[i].(sock := sock);
      }
      assert workers[..] == Accepted(env, p.slots);
      assert image[..] == seq(p.view.width * p.view.height, i => 0);
    }

    /** Step 1: hand the next chunk, or a termination, to every idle worker. */
    method DispatchChunks(round: nat)
      requires queueHead <= queue.Length
      modifies this`queueHead, workers
      ensures Abstract() == Dispatch(env, round, 0, old(Abstract()))
      ensures queueHead <= queue.Length
      ensures forall j | 0 <= j < workers.Length && !old(workers[j]).active && workers[j].sock >= 0 ::
                env.request(round, j) && env.send(round, j)
    {
      DispatchEffect(env, round, 0, Abstract());
      ghost var goal := Dispatch(env, round, 0, Abstract());
      for i := 0 to workers.Length
        invariant queueHead <= queue.Length
        invariant Dispatch(env, round, i, Abstract()) == goal
      {
        ghost var s := Abstract();
        if workers[i].sock < 0 || workers[i].active {
          assert DispatchTo(env, round, i, s) == s;
          continue;
        }
        if !env.request(round, i) {
          workers[i] := workers[i].(sock := -1);
          assert Abstract() == DispatchTo(env, round, i, s);
          continue;
        }
        if queueHead >= queue.Length {
          workers[i] := workers[i].(sock := -1);
          assert Abstract() == DispatchTo(env, round, i, s);
          continue;
        }
        var c := queue[queueHead];
        queueHead := queueHead + 1;
        if !env.send(round, i) {
          queueHead := queueHead - 1;
          workers[i] := workers[i].(sock := -1);
          assert Abstract() == DispatchTo(env, round, i, s);
          continue;
        }
        workers[i] := Slot(workers[i].sock, true, c);
        assert Abstract() == DispatchTo(env, round, i, s);
      }
    }

    /** The descriptors `select` is asked to watch. */
    method WatchActive() returns (watched: set<nat>)
      ensures watched == Watched(workers[..])
    {
      watched := {};
      for i := 0 to workers.Length
        invariant watched == Watched(workers[..i])
      {
        if workers[i].sock >= 0 && workers[i].active {
          watched := watched + {i};
        }
        assert workers[..i + 1] == workers[..i] + [workers[i]];
      }
      assert workers[..workers.Length] == workers[..];
    }

    /** Rewind the head over worker i's chunk and close the worker. */
    method RequeueChunk(i: nat)
      requires i < workers.Length && 0 < queueHead <= queue.Length
      modifies this`queueHead, queue, workers
      ensures Abstract() == Requeue(old(Abstract()), i)
    {
      ghost var s := Abstract();
      queueHead := queueHead - 1;
      queue[queueHead] := workers[i].chunk;
      workers[i] := workers[i].(sock := -1, active := false);
      assert Abstract() == Requeue(s, i);
    }

    /** The timeout branch. */
    method CloseOverdue()
      requires Room(Abstract(), 0)
      modifies this`queueHead, queue, workers
      ensures Abstract() == TimeoutSweep(0, old(Abstract()))
    {
      ghost var goal := TimeoutSweep(0, Abstract());
      for i := 0 to workers.Length
        invariant Room(Abstract(), i)
        invariant TimeoutSweep(i, Abstract()) == goal
      {
        RoomNext(Abstract(), i);
        if workers[i].sock >= 0 && workers[i].active {
          RequeueChunk(i);
        }
      }
    }

    /** The copy of received pixels into the image. */
    method CopyRows(r: Result)
      requires FitsImage(p, r) && image.Length == p.view.width * p.view.height
      modifies image
      ensures image[..] == Paste(p, old(image[..]), r)
      ensures var lo, n := r.startRow * p.view.width % 0x1_0000_0000, r.numRows * p.view.width % 0x1_0000_0000;
              forall k | 0 <= k < image.Length ::
                image[k] == if lo <= k < lo + n then r.pixels[k - lo] else old(image[k])
    {
      var offset, count := Wrap32(r.startRow * p.view.width), Wrap32(r.numRows * p.view.width);
      forall k | 0 <= k < count {
        image[offset + k] := r.pixels[k];
      }
    }

    /** Book a received result. */
    method AcceptResult(i: nat, r: Result)
      requires i < workers.Length && FitsImage(p, r) && image.Length == p.view.width * p.view.height
      modifies this, workers, image
      ensures Abstract() == Accept(p, old(Abstract()), i, r)
      ensures completedRows == (old(completedRows) + r.numRows) % 0x1_0000_0000
    {
      CopyRows(r);
      completedRows := Wrap32(completedRows + r.numRows);
      finished := finished + [workers[i].chunk];
      copied := copied + [Chunk(r.startRow, r.numRows)];
      workers[i] := workers[i].(active := false);
    }

    /** Receives a result from the bytes that arrive, in whatever pieces they come. */
    method ReceiveResult(round: nat, i: nat) returns (rc: int, r: Result)
      requires i < workers.Length
      ensures rc == 0 || rc == -1
      ensures var incoming := Incoming(p, env, round, i, workers[i].chunk);
              if rc == 0 then incoming.Got? && r == incoming.value else incoming.Failed?
    {
      var stream := new Stream((n: nat) => 1, (n: nat) => pieces(n) + 1);
      stream.bytes := env.reply(round, i, EncodeTask(TaskFor(p, workers[i].chunk)));
      rc, r := RecvResult(stream);
    }

    /** Step 3: take a result, or requeue the chunk, for every ready worker. */
    method CollectResults(round: nat, ready: set<nat>)
      requires Inv(p, Abstract()) && RepliesFit(p, env)
      modifies this, queue, workers, image
      ensures Abstract() == Collect(p, env, round, ready, 0, old(Abstract()))
    {
      ghost var goal := Collect(p, env, round, ready, 0, Abstract());
      for i := 0 to workers.Length
        invariant Inv(p, Abstract())
        invariant Collect(p, env, round, ready, i, Abstract()) == goal
      {
        ghost var s := Abstract();
        if workers[i].sock < 0 || !workers[i].active || i !in ready {
          continue;
        }
        HeldChunk(p, s, i);
        CollectFromKeeps(p, env, round, i, s);
        var rc, r := ReceiveResult(round, i);
        if rc < 0 {
          RequeueChunk(i);
        } else {
          AcceptResult(i, r);
        }
        assert Abstract() == CollectFrom(p, env, round, i, s);
      }
    }

    /** The main loop. */
    method Loop() returns (exit: Exit, ghost rounds: nat)
      requires Inv(p, Abstract()) && SelectObeys(env) && RepliesFit(p, env)
      modifies this, queue, workers, image
      ensures Outcome(exit, rounds, Abstract()) == RunFrom(p, env, 0, old(Abstract()))
    {
      ghost var goal := RunFrom(p, env, 0, Abstract());
      var round := 0;
      while completedRows < p.view.height
        invariant Inv(p, Abstract())
        invariant RunFrom(p, env, round, Abstract()) == goal
        decreases Measure(Abstract())
      {
        ghost var s := Abstract();
        DispatchKeeps(p, env, round, 0, s);
        DispatchChunks(round);
        ghost var d := Abstract();
        var watched := WatchActive();
        if watched == {} {
          return AllDead, round;
        }
        match env.select(round, watched) {
          case SelectError =>
            return SelectBroke, round;
          case TimedOut =>
            InvRoom(p, d);
            TimeoutKeeps(p, 0, d);
            CloseOverdue();
          case Ready(socks) =>
            CollectResults(round, socks);
        }
        assert Round(p, env, round, s) == Again(Abstract());
        round := round + 1;
      }
      return AllRowsIn, round;
    }
  }

  /**
   * The whole program: it saves the image exactly when all rows were counted, and with honest workers
   * the saved image is the sequential one.  Otherwise it knows how many rows are missing.
   */
  method RenderDistributed(p: Params, env: Env, pieces: nat -> nat)
    returns (saved: bool, pixels: seq<Byte>, completed: nat)
    requires ValidParams(p) && SelectObeys(env) && RepliesFit(p, env)
    ensures saved <==> Runs.Run(p, env).state.completed == p.view.height
    ensures completed == Runs.Run(p, env).state.completed
    ensures Runs.Honest(p, env) && saved ==> pixels == FullImage(p.paint, p.view)
    ensures Runs.Honest(p, env) && saved ==>
              forall row: nat | row < p.view.height :: HoldsRow(pixels, p.view.width, row, p.paint(p.view, row))
    ensures Runs.Honest(p, env) && !saved ==> completed < p.view.height
    ensures p.view.height > 0 && Runs.NothingSent(env, 0) ==> !saved && completed == 0
  {
    var master := new Master(p, env, pieces);
    StartInv(p, env);
    var exit, rounds := master.Loop();
    saved := master.completedRows == p.view.height;
    pixels, completed := master.image[..], master.completedRows;
    if Runs.Honest(p, env) {
      Runs.DistributedRender(p, env);
      forall row: nat | row < p.view.height
        ensures HoldsRow(FullImage(p.paint, p.view), p.view.width, row, p.paint(p.view, row))
      {
        ImageRow(p.paint, p.view, row);
      }
    }
    if p.view.height > 0 && Runs.NothingSent(env, 0) {
      Runs.NothingSentNothingDone(p, env);
    }
  }
}
