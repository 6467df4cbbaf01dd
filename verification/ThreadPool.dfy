/**
 * The acceptor and the worker threads around the ring, as interleaved critical sections.  Signals wake
 * at least one waiting thread, and threads may also wake up spuriously.
 */
module ThreadPool {
  import opened RingQueue

  /** Ready to lock, asleep on the condition, woken but not yet holding the lock, or serving. */
  datatype Thread = Ready | Waiting | Woken | Busy(fd: int)

  /**
   * `enqueued` and `dequeued` record the connections in the order of the critical sections, `served` those
   * that a thread has handled and closed.
   */
  datatype Pool = Pool(ring: Ring, threads: seq<Thread>, enqueued: seq<int>, dequeued: seq<int>, served: seq<int>)

  datatype Event = Enqueue(fd: int, woken: set<nat>) | Spurious(id: nat) | Check(id: nat) | Finish(id: nat)

  function Sleepers(p: Pool): set<nat> {
    set i: nat | i < |p.threads| && p.threads[i] == Waiting
  }

  predicate Enabled(p: Pool, e: Event) {
    match e
    case Enqueue(_, woken) => woken <= Sleepers(p) && (Sleepers(p) != {} ==> woken != {})
    case Spurious(i) => i < |p.threads| && p.threads[i] == Waiting
    case Check(i) => i < |p.threads| && (p.threads[i] == Ready || p.threads[i] == Woken)
    case Finish(i) => i < |p.threads| && p.threads[i].Busy?
  }

  function Wake(ts: seq<Thread>, woken: set<nat>): (r: seq<Thread>)
    ensures |r| == |ts|
  {
    seq(|ts|, i requires 0 <= i < |ts| => if i in woken then Woken else ts[i])
  }

  /** One critical section: what the thread finds when it holds the mutex. */
  function Step(p: Pool, e: Event): Pool
    requires ValidRing(p.ring) && Enabled(p, e)
  {
    match e
    case Enqueue(fd, woken) =>
      Pool(Put(p.ring, fd), Wake(p.threads, woken), p.enqueued + [fd], p.dequeued, p.served)
    case Spurious(i) => p.(threads := p.threads[i := Woken])
    case Check(i) =>
      if p.ring.front == p.ring.rear then p.(threads := p.threads[i := Waiting])
      else
        var fd := p.ring.slots[p.ring.front];
        p.(ring := Take(p.ring), threads := p.threads[i := Busy(fd)], dequeued := p.dequeued + [fd])
    case Finish(i) => p.(threads := p.threads[i := Ready], served := p.served + [p.threads[i].fd])
  }

  /** The enqueue does not fill the ring. */
  predicate Fits(p: Pool, e: Event)
    requires ValidRing(p.ring)
  {
    e.Enqueue? ==> Pending(p.ring) + 1 < |p.ring.slots|
  }

  // ---- Counting threads ----------------------------------------------------------------------

  /** Weight of a thread list from index k on; `w` weighs one thread. */
  function Weigh(w: Thread -> nat, ts: seq<Thread>, k: nat): nat
    requires k <= |ts|
    decreases |ts| - k
  {
    if k == |ts| then 0 else w(ts[k]) + Weigh(w, ts, k + 1)
  }

  function IsWoken(): Thread -> nat {
    (t: Thread) => if t == Woken then 1 else 0
  }

  /** Critical sections a thread still has before it must sleep. */
  function Steps(): Thread -> nat {
    (t: Thread) =>
      match t
      case Busy(_) => 2
      case Waiting => 0
      case _ => 1
  }

  function WokenCount(p: Pool): nat {
    Weigh(IsWoken(), p.threads, 0)
  }

  lemma {:induction false} WeighUpdate(w: Thread -> nat, ts: seq<Thread>, k: nat, i: nat, t: Thread)
    requires k <= |ts| && i < |ts|
    ensures Weigh(w, ts[i := t], k) + (if k <= i then w(ts[i]) else 0)
            == Weigh(w, ts, k) + (if k <= i then w(t) else 0)
    decreases |ts| - k
  {
    if k < |ts| {
      WeighUpdate(w, ts, k + 1, i, t);
    }
  }

  /** Waking sleepers adds at least one woken thread. */
  lemma {:induction false} WakeCounts(ts: seq<Thread>, woken: set<nat>, k: nat)
    requires k <= |ts| && (forall i | i in woken :: i < |ts| && ts[i] == Waiting)
    ensures Weigh(IsWoken(), Wake(ts, woken), k) >=
            Weigh(IsWoken(), ts, k) + (if exists i | i in woken :: k <= i then 1 else 0)
    decreases |ts| - k
  {
    if k < |ts| {
      WakeCounts(ts, woken, k + 1);
      if k !in woken {
        assert (exists i | i in woken :: k <= i) ==> exists i | i in woken :: k + 1 <= i;
      }
    }
  }

  lemma {:induction false} NoneWoken(ts: seq<Thread>, k: nat)
    requires k <= |ts| && (forall i | k <= i < |ts| :: ts[i] != Woken)
    ensures Weigh(IsWoken(), ts, k) == 0
    decreases |ts| - k
  {
    if k < |ts| {
      NoneWoken(ts, k + 1);
    }
  }

  // ---- Wakeups -------------------------------------------------------------------------------

  /** Some thread asleep implies a woken thread for every pending connection. */
  ghost predicate WakeInv(p: Pool) {
    ValidRing(p.ring) && (Sleepers(p) != {} ==> Pending(p.ring) <= WokenCount(p))
  }

  lemma EnqueueWakes(p: Pool, fd: int, woken: set<nat>)
    requires WakeInv(p) && Enabled(p, Enqueue(fd, woken))
    ensures WakeInv(Step(p, Enqueue(fd, woken)))
  {
    var t := Step(p, Enqueue(fd, woken));
    PutPending(p.ring, fd);
    WakeCounts(p.threads, woken, 0);
    if i :| i in Sleepers(t) {
      assert i in Sleepers(p);
      var j :| j in woken;
    }
  }

  lemma CheckWakes(p: Pool, i: nat)
    requires WakeInv(p) && Enabled(p, Check(i))
    ensures WakeInv(Step(p, Check(i)))
  {
    if p.ring.front != p.ring.rear {
      var t := Step(p, Check(i));
      WeighUpdate(IsWoken(), p.threads, 0, i, t.threads[i]);
      TakePending(p.ring);
      if j :| j in Sleepers(t) {
        assert j in Sleepers(p);
      }
    }
  }

  lemma TakePending(r: Ring)
    requires ValidRing(r) && r.front != r.rear
    ensures Pending(r) > 0 && Pending(Take(r)) == Pending(r) - 1
  {
    WrapOnce(r.front + 1, |r.slots|);
  }

  lemma OtherWakes(p: Pool, e: Event)
    requires WakeInv(p) && Enabled(p, e) && (e.Spurious? || e.Finish?)
    ensures WakeInv(Step(p, e))
  {
    var t := Step(p, e);
    WeighUpdate(IsWoken(), p.threads, 0, e.id, t.threads[e.id]);
    if j :| j in Sleepers(t) {
      assert j in Sleepers(p);
    }
  }

  /** Every critical section keeps the wakeups in order, even one that overflows the ring. */
  lemma StepWakes(p: Pool, e: Event)
    requires WakeInv(p) && Enabled(p, e)
    ensures WakeInv(Step(p, e))
  {
    match e
    case Enqueue(fd, woken) => EnqueueWakes(p, fd, woken);
    case Check(i) => CheckWakes(p, i);
    case _ => OtherWakes(p, e);
  }

  /** No lost wakeup: with connections pending, not every thread is asleep. */
  lemma NoLostWakeup(p: Pool)
    requires WakeInv(p) && p.threads != [] && Pending(p.ring) > 0
    ensures exists i | 0 <= i < |p.threads| :: p.threads[i] != Waiting
  {
    if forall i | 0 <= i < |p.threads| :: p.threads[i] == Waiting {
      assert 0 in Sleepers(p);
      NoneWoken(p.threads, 0);
    }
  }

  // ---- Accounts ------------------------------------------------------------------------------

  /** The connections accepted are those served and those pending, in order. */
  ghost predicate InOrder(p: Pool) {
    ValidRing(p.ring) && p.enqueued == p.dequeued + Contents(p.ring)
  }

  /** The connections that are neither served nor pending. */
  function Lost(p: Pool): int
    requires ValidRing(p.ring)
  {
    |p.enqueued| - |p.dequeued| - Pending(p.ring)
  }

  lemma TakeAccount(done: seq<int>, c: seq<int>)
    requires c != []
    ensures done + c == done + [c[0]] + c[1..]
  {
  }

  /** A thread that finds something pending turns to the oldest connection accepted and not yet taken. */
  lemma TakesOldest(p: Pool, i: nat)
    requires InOrder(p) && Enabled(p, Check(i)) && Pending(p.ring) > 0
    ensures |p.dequeued| < |p.enqueued|
    ensures Step(p, Check(i)).threads[i] == Busy(p.enqueued[|p.dequeued|])
    ensures Step(p, Check(i)).dequeued == p.dequeued + [p.enqueued[|p.dequeued|]]
  {
    TakeRemoves(p.ring);
  }

  /** One if the thread is busy with this connection. */
  function IsBusyWith(fd: int): Thread -> nat {
    (t: Thread) => if t == Busy(fd) then 1 else 0
  }

  /** How many threads have this connection in hand. */
  function InHand(p: Pool, fd: int): nat {
    Weigh(IsBusyWith(fd), p.threads, 0)
  }

  /** Every connection taken from the queue is in a thread's hands or has been served. */
  ghost predicate AllServed(p: Pool) {
    forall fd: int :: multiset(p.dequeued)[fd] == multiset(p.served)[fd] + InHand(p, fd)
  }

  lemma {:induction false} WakeKeepsBusy(ts: seq<Thread>, woken: set<nat>, k: nat, fd: int)
    requires k <= |ts| && (forall i | i in woken :: i < |ts| && ts[i] == Waiting)
    ensures Weigh(IsBusyWith(fd), Wake(ts, woken), k) == Weigh(IsBusyWith(fd), ts, k)
    decreases |ts| - k
  {
    if k < |ts| {
      WakeKeepsBusy(ts, woken, k + 1, fd);
    }
  }

  lemma CountSnoc(s: seq<int>, x: int, fd: int)
    ensures multiset(s + [x])[fd] == multiset(s)[fd] + if x == fd then 1 else 0
  {
    assert multiset(s + [x]) == multiset(s) + multiset{x};
  }

  lemma StepServed(p: Pool, e: Event, fd: int)
    requires ValidRing(p.ring) && Enabled(p, e)
    requires multiset(p.dequeued)[fd] == multiset(p.served)[fd] + InHand(p, fd)
    ensures var t := Step(p, e); multiset(t.dequeued)[fd] == multiset(t.served)[fd] + InHand(t, fd)
  {
    match e
    case Enqueue(_, woken) => WakeKeepsBusy(p.threads, woken, 0, fd);
    case Spurious(i) => WeighUpdate(IsBusyWith(fd), p.threads, 0, i, Woken);
    case Check(i) =>
      WeighUpdate(IsBusyWith(fd), p.threads, 0, i, Step(p, e).threads[i]);
      CountSnoc(p.dequeued, p.ring.slots[p.ring.front], fd);
    case Finish(i) =>
      WeighUpdate(IsBusyWith(fd), p.threads, 0, i, Ready);
      CountSnoc(p.served, p.threads[i].fd, fd);
  }

  /** A critical section that does not fill the ring keeps the account. */
  lemma StepInOrder(p: Pool, e: Event)
    requires InOrder(p) && Enabled(p, e) && Fits(p, e)
    ensures InOrder(Step(p, e))
  {
    match e
    case Enqueue(fd, _) =>
      PutAppendsIff(p.ring, fd);
      assert p.enqueued + [fd] == p.dequeued + (Contents(p.ring) + [fd]);
    case Check(_) =>
      if p.ring.front != p.ring.rear {
        TakeRemoves(p.ring);
        TakeAccount(p.dequeued, Contents(p.ring));
      }
    case _ =>
  }

  /** Losses happen only when an enqueue fills the ring, and then everything in it is lost. */
  lemma StepLost(p: Pool, e: Event)
    requires ValidRing(p.ring) && Enabled(p, e)
    ensures ValidRing(Step(p, e).ring) && |Step(p, e).ring.slots| == |p.ring.slots|
    ensures Lost(Step(p, e)) == Lost(p) + if Fits(p, e) then 0 else |p.ring.slots|
  {
    match e
    case Enqueue(fd, _) =>
      PutPending(p.ring, fd);
    case Check(_) =>
      if p.ring.front != p.ring.rear {
        TakePending(p.ring);
      }
    case _ =>
  }

  /** The account survives an enqueue exactly when the ring does not fill up. */
  lemma OverflowLosesAll(p: Pool, e: Event)
    requires InOrder(p) && Enabled(p, e) && e.Enqueue?
    ensures InOrder(Step(p, e)) <==> Fits(p, e)
  {
    if Fits(p, e) {
      StepInOrder(p, e);
    } else {
      StepLost(p, e);
    }
  }

  // ---- Schedules -----------------------------------------------------------------------------

  /** Any interleaving of critical sections, overflowing ones included. */
  ghost predicate Schedule(p: Pool, es: seq<Event>)
    requires ValidRing(p.ring)
    decreases |es|
  {
    es == [] || (Enabled(p, es[0]) && Schedule(Step(p, es[0]), es[1..]))
  }

  ghost function After(p: Pool, es: seq<Event>): (t: Pool)
    requires ValidRing(p.ring) && Schedule(p, es)
    ensures ValidRing(t.ring)
    decreases |es|
  {
    if es == [] then p else After(Step(p, es[0]), es[1..])
  }

  /** How often an enqueue fills the ring. */
  ghost function Overflows(p: Pool, es: seq<Event>): nat
    requires ValidRing(p.ring) && Schedule(p, es)
    decreases |es|
  {
    if es == [] then 0 else (if Fits(p, es[0]) then 0 else 1) + Overflows(Step(p, es[0]), es[1..])
  }

  function Start(size: nat, threads: nat): Pool
    requires size > 0
  {
    Pool(Ring(seq(size, i => 0), 0, 0), seq(threads, i => Ready), [], [], [])
  }

  lemma {:induction false} ScheduleWakes(p: Pool, es: seq<Event>)
    requires WakeInv(p) && Schedule(p, es)
    ensures WakeInv(After(p, es)) && |After(p, es).threads| == |p.threads|
    decreases |es|
  {
    if es != [] {
      StepWakes(p, es[0]);
      ScheduleWakes(Step(p, es[0]), es[1..]);
    }
  }

  /** In every run whatever, a pending connection finds some thread awake. */
  lemma AlwaysSomeoneAwake(size: nat, threads: nat, es: seq<Event>)
    requires size > 0 && threads > 0 && Schedule(Start(size, threads), es)
    ensures var t := After(Start(size, threads), es);
            Pending(t.ring) > 0 ==> exists i | 0 <= i < |t.threads| :: t.threads[i] != Waiting
  {
    ScheduleWakes(Start(size, threads), es);
    var t := After(Start(size, threads), es);
    if Pending(t.ring) > 0 {
      NoLostWakeup(t);
    }
  }

  lemma {:induction false} ScheduleInOrder(p: Pool, es: seq<Event>)
    requires InOrder(p) && Schedule(p, es) && Overflows(p, es) == 0
    ensures InOrder(After(p, es))
    decreases |es|
  {
    if es != [] {
      StepInOrder(p, es[0]);
      ScheduleInOrder(Step(p, es[0]), es[1..]);
    }
  }

  lemma {:induction false} ScheduleServed(p: Pool, es: seq<Event>, fd: int)
    requires ValidRing(p.ring) && Schedule(p, es)
    requires multiset(p.dequeued)[fd] == multiset(p.served)[fd] + InHand(p, fd)
    ensures var t := After(p, es); multiset(t.dequeued)[fd] == multiset(t.served)[fd] + InHand(t, fd)
    decreases |es|
  {
    if es != [] {
      StepServed(p, es[0], fd);
      ScheduleServed(Step(p, es[0]), es[1..], fd);
    }
  }

  lemma {:induction false} NothingInHand(ts: seq<Thread>, k: nat, fd: int)
    requires k <= |ts| && forall i | k <= i < |ts| :: !ts[i].Busy?
    ensures Weigh(IsBusyWith(fd), ts, k) == 0
    decreases |ts| - k
  {
    if k < |ts| {
      NothingInHand(ts, k + 1, fd);
    }
  }

  /**
   * Over every interleaving a connection has been dequeued as often as it has been served or is in the hands
   * of a thread.
   */
  lemma ServedAreDequeued(size: nat, threads: nat, es: seq<Event>)
    requires size > 0 && Schedule(Start(size, threads), es)
    ensures AllServed(After(Start(size, threads), es))
  {
    var p := Start(size, threads);
    forall fd: int
      ensures var t := After(p, es); multiset(t.dequeued)[fd] == multiset(t.served)[fd] + InHand(t, fd)
    {
      NothingInHand(p.threads, 0, fd);
      ScheduleServed(p, es, fd);
    }
  }

  lemma {:induction false} ScheduleLost(p: Pool, es: seq<Event>)
    requires ValidRing(p.ring) && Schedule(p, es)
    ensures Lost(After(p, es)) == Lost(p) + Overflows(p, es) * |p.ring.slots|
    decreases |es|
  {
    if es != [] {
      StepLost(p, es[0]);
      ScheduleLost(Step(p, es[0]), es[1..]);
      OneMoreTimes(Overflows(Step(p, es[0]), es[1..]), |p.ring.slots|);
    }
  }

  lemma OneMoreTimes(k: nat, n: nat)
    ensures (1 + k) * n == n + k * n
  {
  }

  /**
   * Over every interleaving the queue loses exactly one ring's worth of connections each time it fills up.
   * The accepted connections are the served and the pending ones, in order, exactly when it never does.
   */
  lemma ServedInOrderIff(size: nat, threads: nat, es: seq<Event>)
    requires size > 0 && Schedule(Start(size, threads), es)
    ensures var t, overflows := After(Start(size, threads), es), Overflows(Start(size, threads), es);
            && |t.enqueued| == |t.dequeued| + Pending(t.ring) + overflows * size
            && (InOrder(t) <==> overflows == 0)
            && (overflows == 0 ==> t.dequeued <= t.enqueued)
  {
    var p := Start(size, threads);
    assert InOrder(p);
    ScheduleLost(p, es);
    var overflows := Overflows(p, es);
    if overflows == 0 {
      ScheduleInOrder(p, es);
    } else {
      OneMoreTimes(overflows - 1, size);
    }
  }

  // ---- A run that fills the ring -------------------------------------------------------------

  /** n connections arrive before any thread has locked the mutex. */
  function Burst(n: nat): seq<Event> {
    if n == 0 then [] else [Enqueue(n, {})] + Burst(n - 1)
  }

  ghost predicate NobodyAsleep(p: Pool) {
    forall i | 0 <= i < |p.threads| :: p.threads[i] == Ready
  }

  lemma {:induction false} BurstOverflows(p: Pool, n: nat)
    requires ValidRing(p.ring) && NobodyAsleep(p) && Pending(p.ring) + n == |p.ring.slots| && n > 0
    ensures Schedule(p, Burst(n)) && Overflows(p, Burst(n)) == 1
    ensures Pending(After(p, Burst(n)).ring) == 0 && After(p, Burst(n)).dequeued == p.dequeued
    decreases n
  {
    var e, rest := Enqueue(n, {}), Burst(n - 1);
    assert Burst(n)[0] == e && Burst(n)[1..] == rest;
    assert Sleepers(p) == {};
    PutPending(p.ring, n);
    var next := Step(p, e);
    assert next.threads == p.threads;
    if n == 1 {
      assert rest == [];
      assert After(next, rest) == next && Overflows(next, rest) == 0;
    } else {
      BurstOverflows(next, n - 1);
    }
  }

  /**
   * A burst of QUEUE_SIZE connections before the threads come to run fills the ring: it reads as empty
   * with none of them served.
   */
  lemma BurstIsLost(size: nat, threads: nat)
    requires size > 0
    ensures Schedule(Start(size, threads), Burst(size))
    ensures Overflows(Start(size, threads), Burst(size)) == 1
    ensures var t := After(Start(size, threads), Burst(size));
            Contents(t.ring) == [] && t.dequeued == [] && |t.enqueued| == size
  {
    var p := Start(size, threads);
    BurstOverflows(p, size);
    ServedInOrderIff(size, threads, Burst(size));
  }

  // ---- Draining ------------------------------------------------------------------------------

  function Work(p: Pool): nat
    requires ValidRing(p.ring)
  {
    2 * Pending(p.ring) + Weigh(Steps(), p.threads, 0)
  }

  lemma WorkSpent(p: Pool, e: Event)
    requires ValidRing(p.ring) && Enabled(p, e) && (e.Check? || e.Finish?)
    ensures Work(Step(p, e)) < Work(p)
  {
    WeighUpdate(Steps(), p.threads, 0, e.id, Step(p, e).threads[e.id]);
    if e.Check? && p.ring.front != p.ring.rear {
      TakeRemoves(p.ring);
      assert |Contents(Take(p.ring))| == |Contents(p.ring)| - 1;
    }
  }

  /** Without new connections and spurious wakeups the pool comes to rest. */
  lemma {:induction false} PoolRests(p: Pool, es: seq<Event>)
    requires ValidRing(p.ring) && Schedule(p, es)
    requires forall e | e in es :: e.Check? || e.Finish?
    ensures |es| <= Work(p)
    decreases |es|
  {
    if es != [] {
      assert es[0] in es;
      WorkSpent(p, es[0]);
      PoolRests(Step(p, es[0]), es[1..]);
    }
  }

  /** A pool at rest has nothing pending; unless the ring filled up, it has served all, in order of arrival. */
  lemma RestMeansDrained(p: Pool)
    requires WakeInv(p) && p.threads != []
    requires forall i: nat :: !Enabled(p, Check(i)) && !Enabled(p, Finish(i))
    ensures Pending(p.ring) == 0 && (InOrder(p) ==> p.dequeued == p.enqueued)
    ensures InOrder(p) && AllServed(p) ==> forall fd: int :: multiset(p.served)[fd] == multiset(p.enqueued)[fd]
  {
    forall i | 0 <= i < |p.threads|
      ensures p.threads[i] == Waiting
    {
      assert !Enabled(p, Check(i)) && !Enabled(p, Finish(i));
    }
    forall fd: int
      ensures InHand(p, fd) == 0 && (AllServed(p) ==> multiset(p.served)[fd] == multiset(p.dequeued)[fd])
    {
      NothingInHand(p.threads, 0, fd);
    }
    if Pending(p.ring) > 0 {
      NoLostWakeup(p);
    }
  }
}
