/** The connection queue of the thread pool: a ring without a full check. */
module RingQueue {

  datatype Ring = Ring(slots: seq<int>, front: nat, rear: nat)

  predicate ValidRing(r: Ring) {
    |r.slots| > 0 && r.front < |r.slots| && r.rear < |r.slots|
  }

  /** Pending entries as the ring can tell them; a full ring looks empty. */
  function Pending(r: Ring): nat
    requires ValidRing(r)
  {
    if r.front <= r.rear then r.rear - r.front else r.rear + |r.slots| - r.front
  }

  /** The pending entries, oldest first. */
  function Contents(r: Ring): (c: seq<int>)
    requires ValidRing(r)
    ensures |c| == Pending(r)
  {
    seq(Pending(r), k requires 0 <= k < Pending(r) => r.slots[(r.front + k) % |r.slots|])
  }

  /** `enqueue` under the mutex. */
  function Put(r: Ring, x: int): (t: Ring)
    requires ValidRing(r)
    ensures ValidRing(t)
  {
    Ring(r.slots[r.rear := x], r.front, (r.rear + 1) % |r.slots|)
  }

  /** The part of `dequeue` after the wait loop. */
  function Take(r: Ring): (t: Ring)
    requires ValidRing(r)
    ensures ValidRing(t)
  {
    r.(front := (r.front + 1) % |r.slots|)
  }

  /** Indices below twice the size wrap at most once. */
  lemma WrapOnce(i: nat, n: nat)
    requires n > 0 && i < 2 * n
    ensures i % n == if i < n then i else i - n
  {
  }

  /** The slot behind the last pending entry is the rear slot. */
  lemma RearSlot(r: Ring)
    requires ValidRing(r)
    ensures (r.front + Pending(r)) % |r.slots| == r.rear
  {
    WrapOnce(r.front + Pending(r), |r.slots|);
  }

  lemma PutPending(r: Ring, x: int)
    requires ValidRing(r)
    ensures Pending(Put(r, x)) == if Pending(r) + 1 < |r.slots| then Pending(r) + 1 else 0
  {
    WrapOnce(r.rear + 1, |r.slots|);
  }

  /**
   * An enqueue appends exactly when it leaves at least one slot free; the one that would fill the ring
   * makes it read as empty.
   */
  lemma PutAppendsIff(r: Ring, x: int)
    requires ValidRing(r)
    ensures Pending(r) + 1 < |r.slots| ==> Contents(Put(r, x)) == Contents(r) + [x]
    ensures Pending(r) + 1 == |r.slots| ==> Contents(Put(r, x)) == []
    ensures Contents(Put(r, x)) == Contents(r) + [x] <==> Pending(r) + 1 < |r.slots|
  {
    PutPending(r, x);
    if Pending(r) + 1 < |r.slots| {
      forall k | 0 <= k <= Pending(r)
        ensures Contents(Put(r, x))[k] == (Contents(r) + [x])[k]
      {
        WrapOnce(r.front + k, |r.slots|);
        RearSlot(r);
      }
    }
  }

  lemma TakeRemoves(r: Ring)
    requires ValidRing(r) && r.front != r.rear
    ensures Pending(r) > 0 && Contents(r)[0] == r.slots[r.front]
    ensures Contents(Take(r)) == Contents(r)[1..]
  {
    WrapOnce(r.front, |r.slots|);
    WrapOnce(r.front + 1, |r.slots|);
    forall k | 0 <= k < Pending(r) - 1
      ensures Contents(Take(r))[k] == Contents(r)[1..][k]
    {
      WrapOnce(r.front + 1 + k, |r.slots|);
      WrapOnce(Take(r).front + k, |r.slots|);
    }
  }

  /** The queue with its globals. */
  class Queue {
    const queue: array<int>
    var front: nat
    var rear: nat

    constructor (size: nat)
      requires size > 0
      ensures fresh(queue) && ValidRing(Abstract()) && queue.Length == size && Contents(Abstract()) == []
    {
      queue := new int[size](i => 0);
      front, rear := 0, 0;
    }

    function Abstract(): Ring
      reads this, queue
    {
      Ring(queue[..], front, rear)
    }

    method Enqueue(fd: int)
      requires ValidRing(Abstract())
      modifies this, queue
      ensures Abstract() == Put(old(Abstract()), fd)
      ensures Contents(Abstract())
              == if old(Pending(Abstract())) + 1 < queue.Length then old(Contents(Abstract())) + [fd] else []
    {
      PutAppendsIff(Abstract(), fd);
      queue[rear] := fd;
      rear := (rear + 1) % queue.Length;
    }

    /** The test of the wait loop. */
    method IsEmpty() returns (empty: bool)
      requires ValidRing(Abstract())
      ensures empty <==> Contents(Abstract()) == []
    {
      empty := front == rear;
    }

    /** `dequeue` once the wait loop has seen an entry. */
    method Dequeue() returns (fd: int)
      requires ValidRing(Abstract()) && Contents(Abstract()) != []
      modifies this
      ensures Abstract() == Take(old(Abstract()))
      ensures [fd] + Contents(Abstract()) == old(Contents(Abstract()))
    {
      TakeRemoves(Abstract());
      fd := queue[front];
      front := (front + 1) % queue.Length;
    }
  }
}
