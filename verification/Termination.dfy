/**
 * Which workers are told to terminate.  A worker is told when it asks for work while the queue is empty;
 * the others only see their connection closed after the last row has come in.
 */
module Termination {
  import opened Chunks
  import opened Scheduler
  import opened Session

  /** This step answers worker i's request with a termination. */
  ghost predicate Tells(g: System, a: Actor, i: nat)
    requires |g.peers| == |g.slots|
  {
    && a == TheMaster && g.pc == Serving(i) && i < |g.slots| && Idle(g.slots[i])
    && g.peers[i].up != Empty && g.peers[i].up.first == RequestMsg && g.pending == []
  }

  /** Some step of the schedule tells worker i to terminate. */
  ghost predicate Told(g: System, turns: seq<Actor>, i: nat)
    requires SessionInv(g) && Schedule(g, turns)
    decreases |turns|
  {
    turns != [] &&
    (Tells(g, turns[0], i) || (StepKeeps(g, turns[0]); Told(Step(g, turns[0]), turns[1..], i)))
  }

  /** The last state of a finishing schedule in which rows are missing, or still being collected. */
  ghost function BeforeFinish(g: System, turns: seq<Actor>): (t: System)
    requires SessionInv(g) && Schedule(g, turns) && g.pc != Finished && After(g, turns).pc == Finished
    ensures SessionInv(t) && t.pc.Collecting? && |t.slots| == |g.slots|
    decreases |turns|
  {
    StepKeeps(g, turns[0]);
    StepSizes(g, turns[0]);
    if Step(g, turns[0]).pc == Finished then
      FinishingStep(g, turns[0]);
      g
    else BeforeFinish(Step(g, turns[0]), turns[1..])
  }

  lemma FinishingStep(g: System, a: Actor)
    requires SessionInv(g) && Enabled(g, a) && g.pc != Finished && Step(g, a).pc == Finished
    ensures a == TheMaster && g.pc.Collecting?
  {
  }

  /** Until the finish a connection is closed by a termination and by nothing else. */
  lemma ClosedByTelling(g: System, a: Actor, i: nat)
    requires SessionInv(g) && Enabled(g, a) && i < |g.slots| && Step(g, a).pc != Finished
    ensures i < |Step(g, a).slots|
    ensures Step(g, a).slots[i].sock < 0 <==> g.slots[i].sock < 0 || Tells(g, a, i)
  {
    StepSizes(g, a);
    if a == TheMaster {
      if g.pc.Serving? && g.pc.next < |g.slots| {
        assert LinkOk(g.slots[g.pc.next], g.peers[g.pc.next]);
      }
      if g.pc.Collecting? && g.pc.next < |g.slots| {
        assert LinkOk(g.slots[g.pc.next], g.peers[g.pc.next]);
      }
    }
  }

  /** The finishing step tells nobody, and nobody is told afterwards. */
  lemma {:induction false} NobodyToldLater(g: System, turns: seq<Actor>, i: nat)
    requires SessionInv(g) && Schedule(g, turns) && g.pc == Finished
    ensures !Told(g, turns, i)
    decreases |turns|
  {
    if turns != [] {
      StepKeeps(g, turns[0]);
      assert turns[0] != TheMaster;
      NobodyToldLater(Step(g, turns[0]), turns[1..], i);
    }
  }

  /** A worker connected now is told to terminate exactly if it is closed already before the finish. */
  lemma {:induction false} ToldIff(g: System, turns: seq<Actor>, i: nat)
    requires SessionInv(g) && Schedule(g, turns) && g.pc != Finished && After(g, turns).pc == Finished
    requires i < |g.slots|
    ensures BeforeFinish(g, turns).slots[i].sock < 0 <==> g.slots[i].sock < 0 || Told(g, turns, i)
    decreases |turns|
  {
    var next, rest := Step(g, turns[0]), turns[1..];
    StepKeeps(g, turns[0]);
    if next.pc == Finished {
      FinishingStep(g, turns[0]);
      NobodyToldLater(next, rest, i);
    } else {
      ClosedByTelling(g, turns[0], i);
      ToldIff(next, rest, i);
    }
  }

  // ---- How workers leave ---------------------------------------------------------------------

  /** A termination is on its way to the worker, or has made it exit. */
  predicate Warned(l: Peer) {
    l.pc == Exited(true) || (l.down.Next? && l.down.first == TerminateMsg)
  }

  lemma WarnedStep(g: System, a: Actor, i: nat)
    requires SessionInv(g) && Enabled(g, a) && i < |g.slots|
    ensures i < |Step(g, a).peers|
    ensures Warned(Step(g, a).peers[i]) <==> Warned(g.peers[i]) || Tells(g, a, i)
  {
    StepSizes(g, a);
    assert LinkOk(g.slots[i], g.peers[i]);
    if a == TheMaster && (g.pc.Serving? || g.pc.Collecting?) && g.pc.next < |g.slots| {
      assert LinkOk(g.slots[g.pc.next], g.peers[g.pc.next]);
    }
  }

  lemma {:induction false} WarnedIff(g: System, turns: seq<Actor>, i: nat)
    requires SessionInv(g) && Schedule(g, turns) && i < |g.slots|
    ensures i < |After(g, turns).peers|
    ensures Warned(After(g, turns).peers[i]) <==> Warned(g.peers[i]) || Told(g, turns, i)
    decreases |turns|
  {
    if turns != [] {
      StepKeeps(g, turns[0]);
      StepSizes(g, turns[0]);
      WarnedStep(g, turns[0], i);
      WarnedIff(Step(g, turns[0]), turns[1..], i);
    }
  }

  /** Once everybody has left, the workers that were told are those that exited on a termination. */
  lemma ExitTellsWhy(height: nat, size: nat, socks: seq<int>, turns: seq<Actor>, i: nat)
    requires size > 0 && height > 0 && i < |socks|
    requires exists j :: 0 <= j < |socks| && socks[j] >= 0
    ensures SessionInv(Begin(height, size, socks))
    ensures var g := Begin(height, size, socks);
            Schedule(g, turns) && (forall a :: !Enabled(After(g, turns), a)) ==>
              i < |After(g, turns).peers| && After(g, turns).peers[i].pc == Exited(Told(g, turns, i))
  {
    var g := Begin(height, size, socks);
    BeginInv(height, size, socks);
    if Schedule(g, turns) && forall a :: !Enabled(After(g, turns), a) {
      WarnedIff(g, turns, i);
      CompleteSchedule(g, turns);
      var t := After(g, turns);
      assert LinkOk(t.slots[i], t.peers[i]);
    }
  }

  /**
   * The announced termination of all workers never happens: every finishing run leaves a connected worker
   * untold.  Told are exactly the workers whose connection is closed already when the last result has
   * been read.
   */
  lemma SomeoneUntold(height: nat, size: nat, socks: seq<int>, turns: seq<Actor>)
    requires size > 0 && height > 0
    requires exists i :: 0 <= i < |socks| && socks[i] >= 0
    ensures SessionInv(Begin(height, size, socks))
    ensures var g := Begin(height, size, socks);
            Schedule(g, turns) && After(g, turns).pc == Finished ==>
              && (exists i | 0 <= i < |socks| :: socks[i] >= 0 && !Told(g, turns, i))
              && (forall i | 0 <= i < |socks| && socks[i] >= 0 ::
                    Told(g, turns, i) <==> BeforeFinish(g, turns).slots[i].sock < 0)
  {
    var g := Begin(height, size, socks);
    BeginInv(height, size, socks);
    if Schedule(g, turns) && After(g, turns).pc == Finished {
      forall i | 0 <= i < |socks|
        ensures BeforeFinish(g, turns).slots[i].sock < 0 <==> socks[i] < 0 || Told(g, turns, i)
      {
        ToldIff(g, turns, i);
      }
      var open :| 0 <= open < |socks| && BeforeFinish(g, turns).slots[open].sock >= 0;
      assert socks[open] >= 0 && !Told(g, turns, open);
    }
  }
}
