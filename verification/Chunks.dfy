/** Row chunks: the three ways the masters split an image, and sums over lists of chunks. */
module Chunks {

  datatype Chunk = Chunk(start: nat, rows: nat)

  /**
   * The reference split of rows [start, height): full chunks, then what is left.  This is how the
   * on-the-fly master walks the image with `next_row`.
   */
  function Split(start: nat, height: nat, size: nat): (cs: seq<Chunk>)
    requires size > 0
    decreases height - start
  {
    if start >= height then []
    else
      var rows := if start + size <= height then size else height - start;
      [Chunk(start, rows)] + Split(start + rows, height, size)
  }

  function TotalChunks(height: nat, size: nat): nat
    requires size > 0
  {
    (height + size - 1) / size
  }

  // ---- Sums over chunk lists ----------------------------------------------------------------

  function Sum(f: Chunk -> nat, cs: seq<Chunk>): nat {
    if cs == [] then 0 else f(cs[0]) + Sum(f, cs[1..])
  }

  /** Number of rows of a chunk. */
  function RowsOf(): Chunk -> nat {
    (c: Chunk) => c.rows
  }

  /** One if the chunk contains the row. */
  function Covers(row: nat): Chunk -> nat {
    (c: Chunk) => if c.start <= row < c.start + c.rows then 1 else 0
  }

  lemma {:induction false} SumConcat(f: Chunk -> nat, a: seq<Chunk>, b: seq<Chunk>)
    ensures Sum(f, a + b) == Sum(f, a) + Sum(f, b)
  {
    if a == [] {
      assert a + b == b;
    } else {
      assert (a + b)[1..] == a[1..] + b;
      SumConcat(f, a[1..], b);
    }
  }

  lemma {:induction false} SumRemove(f: Chunk -> nat, cs: seq<Chunk>, k: nat)
    requires k < |cs|
    ensures Sum(f, cs) == f(cs[k]) + Sum(f, cs[..k] + cs[k + 1..])
  {
    SumConcat(f, cs[..k], cs[k + 1..]);
    SumConcat(f, cs[..k], cs[k..]);
    assert cs[..k] + cs[k..] == cs;
    assert cs[k..][1..] == cs[k + 1..];
  }

  /** A sum does not depend on the order of the list. */
  lemma {:induction false} SumPermutation(f: Chunk -> nat, a: seq<Chunk>, b: seq<Chunk>)
    requires multiset(a) == multiset(b)
    ensures Sum(f, a) == Sum(f, b)
  {
    if a == [] {
      assert |multiset(b)| == 0;
    } else {
      assert a[0] in multiset(b);
      var k :| 0 <= k < |b| && b[k] == a[0];
      var without := b[..k] + b[k + 1..];
      PermutationTail(a, b, k);
      SumPermutation(f, a[1..], without);
      SumRemove(f, b, k);
    }
  }

  lemma PermutationTail(a: seq<Chunk>, b: seq<Chunk>, k: nat)
    requires a != [] && k < |b| && b[k] == a[0] && multiset(a) == multiset(b)
    ensures multiset(a[1..]) == multiset(b[..k] + b[k + 1..])
  {
    assert a == [a[0]] + a[1..];
    assert b == b[..k] + [b[k]] + b[k + 1..];
    assert multiset(a) == multiset{a[0]} + multiset(a[1..]);
    assert multiset(b) == multiset(b[..k]) + multiset{b[k]} + multiset(b[k + 1..]);
    assert multiset(a[1..]) == multiset(a) - multiset{a[0]};
    assert multiset(b[..k] + b[k + 1..]) == multiset(b[..k]) + multiset(b[k + 1..]) == multiset(b) - multiset{b[k]};
  }

  /** A positive sum has a positive member. */
  lemma {:induction false} SumWitness(f: Chunk -> nat, cs: seq<Chunk>) returns (c: Chunk)
    requires Sum(f, cs) > 0
    ensures c in cs && f(c) > 0
  {
    if f(cs[0]) > 0 {
      c := cs[0];
    } else {
      c := SumWitness(f, cs[1..]);
    }
  }

  // ---- The split is a partition --------------------------------------------------------------

  /** Chunks are non-empty, inside [start, height), and at most `size` rows long. */
  lemma {:induction false} SplitBounds(start: nat, height: nat, size: nat)
    requires size > 0
    ensures forall c | c in Split(start, height, size) ::
              1 <= c.rows <= size && start <= c.start && c.start + c.rows <= height
    decreases height - start
  {
    if start < height {
      var rows := if start + size <= height then size else height - start;
      SplitBounds(start + rows, height, size);
    }
  }

  /** Every row of [start, height) is in exactly one chunk, and no other row is in any. */
  lemma {:induction false} SplitPartitions(start: nat, height: nat, size: nat, row: nat)
    requires size > 0
    ensures Sum(Covers(row), Split(start, height, size)) == if start <= row < height then 1 else 0
    decreases height - start
  {
    if start < height {
      var rows := if start + size <= height then size else height - start;
      SplitPartitions(start + rows, height, size, row);
      var head, tail := Chunk(start, rows), Split(start + rows, height, size);
      assert ([head] + tail)[1..] == tail;
    }
  }

  lemma {:induction false} SplitRows(start: nat, height: nat, size: nat)
    requires size > 0
    ensures Sum(RowsOf(), Split(start, height, size)) == if start <= height then height - start else 0
    decreases height - start
  {
    if start < height {
      var rows := if start + size <= height then size else height - start;
      SplitRows(start + rows, height, size);
      var head, tail := Chunk(start, rows), Split(start + rows, height, size);
      assert ([head] + tail)[1..] == tail;
    }
  }

  // ---- The prebuilt queue --------------------------------------------------------------------

  /** The i-th entry the master writes into its queue. */
  function QueueEntry(height: nat, size: nat, i: nat): Chunk
    requires i * size < height
  {
    Chunk(i * size, if i * size + size <= height then size else height - i * size)
  }

  lemma TotalChunksBounds(height: nat, size: nat, i: nat)
    requires size > 0
    ensures i < TotalChunks(height, size) <==> i * size < height
  {
    var t := TotalChunks(height, size);
    assert t * size <= height + size - 1 < (t + 1) * size;
    if i < t {
      assert i * size <= (t - 1) * size == t * size - size;
    } else {
      assert i * size >= t * size == (t + 1) * size - size;
    }
  }

  /** The tail of the split after i full chunks, by index. */
  lemma {:induction false} SplitIndexed(height: nat, size: nat, i: nat, k: nat)
    requires size > 0 && i <= k < TotalChunks(height, size)
    ensures k * size < height
    ensures |Split(i * size, height, size)| == TotalChunks(height, size) - i
    ensures Split(i * size, height, size)[k - i] == QueueEntry(height, size, k)
    decreases TotalChunks(height, size) - i
  {
    TotalChunksBounds(height, size, i);
    TotalChunksBounds(height, size, i + 1);
    TotalChunksBounds(height, size, k);
    assert (i + 1) * size == i * size + size;
    var rows := if i * size + size <= height then size else height - i * size;
    assert Split(i * size, height, size) == [Chunk(i * size, rows)] + Split(i * size + rows, height, size);
    if i + 1 < TotalChunks(height, size) {
      SplitIndexed(height, size, i + 1, if k == i then i + 1 else k);
    } else {
      assert i * size + rows == height;
    }
  }

  /** The split has `TotalChunks` entries and the i-th is the i-th queue entry. */
  lemma QueueIsSplit(height: nat, size: nat)
    requires size > 0
    ensures |Split(0, height, size)| == TotalChunks(height, size)
    ensures forall i | 0 <= i < TotalChunks(height, size) ::
              i * size < height && Split(0, height, size)[i] == QueueEntry(height, size, i)
  {
    if TotalChunks(height, size) == 0 {
      TotalChunksBounds(height, size, 0);
    } else {
      assert 0 * size == 0;
      forall i | 0 <= i < TotalChunks(height, size)
        ensures i * size < height && |Split(0, height, size)| == TotalChunks(height, size)
                && Split(0, height, size)[i] == QueueEntry(height, size, i)
      {
        SplitIndexed(height, size, 0, i);
      }
      assert |Split(0, height, size)| == TotalChunks(height, size) by { SplitIndexed(height, size, 0, 0); }
    }
  }

  /** All chunks but the last are full, and each starts where the previous one ends. */
  lemma FullChunks(height: nat, size: nat, i: nat)
    requires size > 0 && i < |Split(0, height, size)|
    ensures var c := Split(0, height, size)[i];
            && c.start == i * size
            && (i + 1 < |Split(0, height, size)| ==> c.rows == size)
            && (i + 1 == |Split(0, height, size)| ==> c.start + c.rows == height)
  {
    QueueIsSplit(height, size);
    TotalChunksBounds(height, size, i + 1);
    assert (i + 1) * size == i * size + size;
  }

  /** The loop that fills the queue, in 32-bit arithmetic that cannot wrap for these sizes. */
  method BuildQueue(height: nat, size: nat) returns (queue: array<Chunk>)
    requires size > 0 && height + size <= 0x8000_0000
    ensures fresh(queue) && queue[..] == Split(0, height, size)
  {
    var totalChunks := TotalChunks(height, size);
    queue := new Chunk[totalChunks](i => Chunk(0, 0));
    QueueIsSplit(height, size);
    for i := 0 to totalChunks
      invariant queue[..i] == Split(0, height, size)[..i]
    {
      var start := i * size;
      var end := start + size;
      queue[i] := Chunk(start, if end <= height then size else height - start);
      assert queue[..i + 1] == queue[..i] + [queue[i]];
    }
    assert queue[..] == queue[..totalChunks];
  }

  // ---- The on-the-fly splitter ---------------------------------------------------------------

  /** The number of successful requests among the first n turns. */
  function Asked(asks: nat -> bool, n: nat): nat {
    if n == 0 then 0 else Asked(asks, n - 1) + if asks(n - 1) then 1 else 0
  }

  lemma IssueNext(issued: seq<Chunk>, c: Chunk, rest: seq<Chunk>)
    ensures issued + ([c] + rest) == issued + [c] + rest
  {
  }

  /**
   * The chunks the `next_row` master hands out over any number of turns, whichever requests fail: the
   * split from its front, one chunk for each request that arrives until there are no more.
   */
  method SplitOnTheFly(height: nat, size: nat, asks: nat -> bool, turns: nat) returns (issued: seq<Chunk>)
    requires size > 0 && height + size <= 0x8000_0000
    ensures issued <= Split(0, height, size)
    ensures |issued| == if Asked(asks, turns) <= |Split(0, height, size)| then Asked(asks, turns)
                        else |Split(0, height, size)|
    ensures Asked(asks, turns) >= |Split(0, height, size)| ==> issued == Split(0, height, size)
  {
    var nextRow := 0;
    issued := [];
    for turn := 0 to turns
      invariant 0 <= nextRow <= height
      invariant issued + Split(nextRow, height, size) == Split(0, height, size)
      invariant |issued| <= Asked(asks, turn) && (nextRow < height ==> |issued| == Asked(asks, turn))
    {
      if !asks(turn) {
        continue;
      }
      if nextRow >= height {
        continue;
      }
      var c := Chunk(nextRow, if nextRow + size <= height then size else height - nextRow);
      IssueNext(issued, c, Split(nextRow + c.rows, height, size));
      issued := issued + [c];
      nextRow := nextRow + c.rows;
    }
  }

  // ---- The static splitter -------------------------------------------------------------------

  /** The first n shares of the static master: worker i gets the i-th block of rows. */
  function Shares(block: nat, n: nat): (cs: seq<Chunk>)
    ensures |cs| == n
  {
    if n == 0 then [] else Shares(block, n - 1) + [Chunk((n - 1) * block, block)]
  }

  lemma {:induction false} SharesCover(block: nat, n: nat, row: nat)
    ensures Sum(Covers(row), Shares(block, n)) == if row < n * block then 1 else 0
  {
    if n > 0 {
      SharesCover(block, n - 1, row);
      var last := Chunk((n - 1) * block, block);
      SumConcat(Covers(row), Shares(block, n - 1), [last]);
      assert Sum(Covers(row), [last]) == Covers(row)(last);
      assert n * block == (n - 1) * block + block;
    }
  }

  /** The loop of the static master over its workers; each of the rows it assigns has one owner. */
  method AssignStatically(height: nat, workers: nat) returns (shares: seq<Chunk>)
    requires workers > 0
    ensures |shares| == workers
    ensures forall i | 0 <= i < workers :: shares[i] == Chunk(i * (height / workers), height / workers)
    ensures forall row: nat :: Sum(Covers(row), shares) == if row < workers * (height / workers) then 1 else 0
  {
    shares := [];
    for i := 0 to workers
      invariant shares == Shares(height / workers, i)
      invariant forall j | 0 <= j < i :: shares[j] == Chunk(j * (height / workers), height / workers)
    {
      shares := shares + [Chunk(i * (height / workers), height / workers)];
    }
    forall row: nat
      ensures Sum(Covers(row), shares) == if row < workers * (height / workers) then 1 else 0
    {
      SharesCover(height / workers, workers, row);
    }
  }

  /** The static split leaves no row out exactly when the worker count divides the height. */
  lemma StaticSplitComplete(height: nat, workers: nat)
    requires workers > 0
    ensures (forall row: nat | row < height :: Sum(Covers(row), Shares(height / workers, workers)) == 1)
            <==> height % workers == 0
  {
    var block := height / workers;
    assert height == workers * block + height % workers;
    forall row: nat
      ensures Sum(Covers(row), Shares(block, workers)) == if row < workers * block then 1 else 0
    {
      SharesCover(block, workers, row);
    }
    if height % workers != 0 {
      var missed: nat := workers * block;
      assert missed < height && Sum(Covers(missed), Shares(block, workers)) == 0;
    }
  }
}
