/** The sequential render, which specifies the distributed image, and the worker that computes rows. */
module Render {
  import opened Bytes
  import opened Transport
  import opened Wire

  /** The image parameters every task carries. */
  datatype View = View(width: U32, height: U32, maxIter: U32, centerX: Double, centerY: Double, zoom: Double)

  /** `compute_row` as a fixed function of its parameters: one row of pixels. */
  type Painter = (View, nat) -> seq<Byte>

  ghost predicate FillsRows(paint: Painter) {
    forall v: View, row: nat :: |paint(v, row)| == v.width
  }

  /** Rows lo .. lo + n of the image, one after the other. */
  function Rows(paint: Painter, v: View, lo: nat, n: nat): seq<Byte> {
    if n == 0 then [] else Rows(paint, v, lo, n - 1) + paint(v, lo + n - 1)
  }

  /** The image of the sequential program. */
  function FullImage(paint: Painter, v: View): seq<Byte> {
    Rows(paint, v, 0, v.height)
  }

  lemma {:induction false} RowsLength(paint: Painter, v: View, lo: nat, n: nat)
    requires FillsRows(paint)
    ensures |Rows(paint, v, lo, n)| == n * v.width
  {
    if n > 0 {
      RowsLength(paint, v, lo, n - 1);
      assert n * v.width == (n - 1) * v.width + v.width;
    }
  }

  /** A block of rows is the corresponding slice of any larger block from row 0. */
  lemma {:induction false} RowsSlice(paint: Painter, v: View, lo: nat, n: nat, total: nat)
    requires FillsRows(paint) && lo + n <= total
    ensures 0 <= lo * v.width <= (lo + n) * v.width <= |Rows(paint, v, 0, total)|
    ensures Rows(paint, v, lo, n) == Rows(paint, v, 0, total)[lo * v.width..(lo + n) * v.width]
    decreases total
  {
    var w := v.width;
    RowsLength(paint, v, 0, total);
    RowsLength(paint, v, lo, n);
    MulMonotone(lo, lo + n, w);
    MulMonotone(lo + n, total, w);
    if lo + n < total {
      RowsSlice(paint, v, lo, n, total - 1);
    } else if n > 0 {
      RowsSlice(paint, v, lo, n - 1, total - 1);
      var before := Rows(paint, v, 0, total - 1);
      RowsLength(paint, v, 0, total - 1);
      assert total * w == (total - 1) * w + w;
      assert Rows(paint, v, 0, total)[lo * w..total * w] == before[lo * w..] + paint(v, total - 1);
    }
  }

  lemma MulMonotone(a: nat, b: nat, c: nat)
    requires a <= b
    ensures 0 <= a * c <= b * c
  {
  }

  /** Row i of a buffer with rows of this width. */
  predicate HoldsRow(buffer: seq<Byte>, width: nat, i: nat, pixels: seq<Byte>) {
    0 <= i * width <= (i + 1) * width <= |buffer| && buffer[i * width..(i + 1) * width] == pixels
  }

  /** Row i of a block is the painted row lo + i: every row is where it belongs. */
  lemma {:induction false} RowAt(paint: Painter, v: View, lo: nat, n: nat, i: nat)
    requires FillsRows(paint) && i < n
    ensures HoldsRow(Rows(paint, v, lo, n), v.width, i, paint(v, lo + i))
  {
    RowsLength(paint, v, lo, n - 1);
    RowsLength(paint, v, lo, n);
    MulMonotone(i, i + 1, v.width);
    MulMonotone(i + 1, n, v.width);
    if i < n - 1 {
      RowAt(paint, v, lo, n - 1, i);
      TakeInFront(Rows(paint, v, lo, n - 1), paint(v, lo + n - 1), i * v.width, (i + 1) * v.width);
    }
  }

  lemma TakeInFront(a: seq<Byte>, b: seq<Byte>, from: nat, to: nat)
    requires from <= to <= |a|
    ensures (a + b)[from..to] == a[from..to]
  {
  }

  /** The buffer holds the painted rows lo .. lo + n, each in its place. */
  ghost predicate HoldsRows(buffer: seq<Byte>, paint: Painter, v: View, lo: nat, n: nat) {
    && |buffer| == n * v.width
    && forall i: nat, row: nat | i < n && row == lo + i :: HoldsRow(buffer, v.width, i, paint(v, row))
  }

  lemma BlockHoldsRows(paint: Painter, v: View, lo: nat, n: nat)
    requires FillsRows(paint)
    ensures HoldsRows(Rows(paint, v, lo, n), paint, v, lo, n)
  {
    RowsLength(paint, v, lo, n);
    forall i: nat, row: nat | i < n && row == lo + i
      ensures HoldsRow(Rows(paint, v, lo, n), v.width, i, paint(v, row))
    {
      RowAt(paint, v, lo, n, i);
    }
  }

  /** The image shows each row in its place. */
  lemma ImageRow(paint: Painter, v: View, row: nat)
    requires FillsRows(paint) && row < v.height
    ensures HoldsRow(FullImage(paint, v), v.width, row, paint(v, row))
  {
    RowAt(paint, v, 0, v.height, row);
  }

  method ComputeRow(paint: Painter, v: View, row: nat, pixels: array<Byte>, offset: nat)
    requires FillsRows(paint) && offset + v.width <= pixels.Length
    modifies pixels
    ensures pixels[..] == old(pixels[..offset]) + paint(v, row) + old(pixels[offset + v.width..])
  {
    var shades := paint(v, row);
    for col := 0 to v.width
      invariant forall k | 0 <= k < pixels.Length ::
                  pixels[k] == if offset <= k < offset + col then shades[k - offset] else old(pixels[k])
    {
      pixels[offset + col] := shades[col];
    }
  }

  /** Rows lo .. lo + n written one by one into a buffer that holds exactly them. */
  method ComputeRows(paint: Painter, v: View, lo: nat, n: nat) returns (pixels: array<Byte>)
    requires FillsRows(paint)
    ensures fresh(pixels) && pixels[..] == Rows(paint, v, lo, n)
    ensures HoldsRows(pixels[..], paint, v, lo, n)
  {
    RowsLength(paint, v, lo, n);
    pixels := new Byte[n * v.width](i => 0);
    for row := 0 to n
      invariant row * v.width <= pixels.Length
      invariant pixels[..row * v.width] == Rows(paint, v, lo, row)
    {
      assert (row + 1) * v.width == row * v.width + v.width;
      MulMonotone(row + 1, n, v.width);
      ghost var done := pixels[..row * v.width];
      ComputeRow(paint, v, lo + row, pixels, row * v.width);
      assert pixels[..(row + 1) * v.width] == done + paint(v, lo + row);
    }
    assert pixels[..] == pixels[..n * v.width];
    BlockHoldsRows(paint, v, lo, n);
  }

  /** The local renderer. */
  method RenderLocally(paint: Painter, v: View) returns (image: array<Byte>)
    requires FillsRows(paint) && v.width * v.height < 0x8000_0000
    ensures image[..] == FullImage(paint, v) && |image[..]| == v.height * v.width
    ensures forall row: nat | row < v.height :: HoldsRow(image[..], v.width, row, paint(v, row))
  {
    image := ComputeRows(paint, v, 0, v.height);
    forall row: nat | row < v.height
      ensures HoldsRow(image[..], v.width, row, paint(v, row))
    {
      ImageRow(paint, v, row);
    }
  }

  // ---- The worker ----------------------------------------------------------------------------

  function ViewOf(t: Task): View {
    View(t.width, t.height, t.maxIter, t.centerX, t.centerY, t.zoom)
  }

  /** Pixel count and row numbers do not wrap in 32 bits, and the width is one that `compute_row` takes. */
  predicate TaskFits(t: Task) {
    t.numRows * t.width < 0x1_0000_0000 && t.startRow + t.numRows <= 0x1_0000_0000 && t.width < 0x8000_0000
  }

  /** A worker's answer echoes the row range it was sent. */
  function ResultFor(paint: Painter, t: Task): Result {
    Result(t.startRow, t.numRows, t.width, Rows(paint, ViewOf(t), t.startRow, t.numRows))
  }

  lemma ResultForSized(paint: Painter, t: Task)
    requires FillsRows(paint) && TaskFits(t)
    ensures Sized(ResultFor(paint, t))
  {
    RowsLength(paint, ViewOf(t), t.startRow, t.numRows);
  }

  /** All tasks at the front of a stream fit. */
  predicate TasksFit(s: seq<Byte>)
    decreases |s|
  {
    var r := ReadTask(s);
    r.Got? && r.value.Work? ==> TaskFits(r.value.task) && TasksFit(r.rest)
  }

  /** Everything the worker writes when the master's side of the stream is `s`. */
  function WorkerOutput(paint: Painter, s: seq<Byte>): seq<Byte>
    decreases |s|, 1
  {
    Encode(Request) + WorkerTail(paint, s)
  }

  /** What it writes after its first request. */
  function WorkerTail(paint: Painter, s: seq<Byte>): seq<Byte>
    decreases |s|, 0
  {
    var r := ReadTask(s);
    if r.Got? && r.value.Work? then EncodeResult(ResultFor(paint, r.value.task)) + WorkerOutput(paint, r.rest)
    else []
  }

  /** What the worker sends back for the bytes of one task. */
  function WorkerReply(paint: Painter, sent: seq<Byte>): seq<Byte> {
    var r := ReadTask(sent);
    if r.Got? && r.value.Work? then EncodeResult(ResultFor(paint, r.value.task)) else []
  }

  /** `now` is between a stream's old contents and the whole of what is to be appended. */
  predicate PartSent(before: seq<Byte>, now: seq<Byte>, whole: seq<Byte>) {
    before <= now <= before + whole
  }

  lemma PartLater(before: seq<Byte>, whole: seq<Byte>, mid: seq<Byte>, now: seq<Byte>, next: seq<Byte>, tail: seq<Byte>)
    requires before <= mid && mid + (next + tail) == before + whole && mid <= now <= mid + next
    ensures PartSent(before, now, whole)
  {
    assert mid + (next + tail) == mid + next + tail;
  }

  /**
   * The worker's loop: request, receive, compute, reply, until a termination, an end of file or a
   * failed call.  It writes a prefix of `WorkerOutput`, wherever a call fails, and all of it over
   * healthy streams.
   */
  method RunWorker(paint: Painter, down: Stream, up: Stream)
    requires FillsRows(paint) && down != up && TasksFit(down.bytes)
    modifies down`bytes, down`recvCalls, up`bytes, up`sendCalls
    ensures PartSent(old(up.bytes), up.bytes, WorkerOutput(paint, old(down.bytes)))
    ensures down.Healthy() && up.Healthy() ==>
              up.bytes == old(up.bytes) + WorkerOutput(paint, old(down.bytes))
  {
    ghost var healthy := down.Healthy() && up.Healthy();
    ghost var before, whole := up.bytes, WorkerOutput(paint, down.bytes);
    while true
      invariant TasksFit(down.bytes) && before <= up.bytes
      invariant up.bytes + WorkerOutput(paint, down.bytes) == before + whole
      decreases |down.bytes|
    {
      ghost var written, unread := up.bytes, down.bytes;
      var rc := SendWorkRequest(up);
      PartLater(before, whole, written, up.bytes, Encode(Request), WorkerTail(paint, unread));
      if rc < 0 {
        break;
      }
      var got, t := RecvTask(down);
      if got == 1 {
        break;
      }
      if got < 0 {
        break;
      }
      var pixels := ComputeRows(paint, ViewOf(t), t.startRow, t.numRows);
      ResultForSized(paint, t);
      var r := Result(t.startRow, t.numRows, t.width, pixels[..]);
      WorkerTurn(paint, written, unread, t, down.bytes);
      ghost var requested := up.bytes;
      rc := SendResult(up, r);
      PartLater(before, whole, requested, up.bytes, EncodeResult(r), WorkerOutput(paint, down.bytes));
      if rc < 0 {
        break;
      }
    }
  }

  lemma WorkerTurn(paint: Painter, written: seq<Byte>, unread: seq<Byte>, t: Task, rest: seq<Byte>)
    requires ReadTask(unread) == Got(Work(t), rest)
    ensures written + WorkerOutput(paint, unread)
            == written + Encode(Request) + EncodeResult(ResultFor(paint, t)) + WorkerOutput(paint, rest)
            == written + Encode(Request) + (EncodeResult(ResultFor(paint, t)) + WorkerOutput(paint, rest))
  {
    Regroup(written, Encode(Request), EncodeResult(ResultFor(paint, t)), WorkerOutput(paint, rest));
  }

  lemma Regroup(a: seq<Byte>, b: seq<Byte>, c: seq<Byte>, d: seq<Byte>)
    ensures a + (b + (c + d)) == a + b + c + d == a + b + (c + d)
  {
  }

  lemma PrefixCut(a: seq<Byte>, b: seq<Byte>, w: seq<Byte>)
    requires w <= a + b
    ensures if |w| < |a| then w < a else a <= w && w[|a|..] <= b
  {
  }

  lemma OneTaskTail(paint: Painter, t: Task)
    ensures WorkerTail(paint, EncodeTask(t)) == EncodeResult(ResultFor(paint, t)) + Encode(Request)
    ensures WorkerReply(paint, EncodeTask(t)) == EncodeResult(ResultFor(paint, t))
  {
    ReadEncodedTask(t, []);
    assert EncodeTask(t) + [] == EncodeTask(t);
    assert WorkerTail(paint, []) == [];
    assert WorkerOutput(paint, []) == Encode(Request) + [] == Encode(Request);
  }

  // ---- A whole session of a worker -----------------------------------------------------------

  /** The master's side of a session: tasks, then a termination. */
  function Orders(tasks: seq<Task>): seq<Message> {
    if tasks == [] then [Terminate] else [Work(tasks[0])] + Orders(tasks[1..])
  }

  /** Requests alternate with the results of the tasks, in order, and a request comes last. */
  predicate Alternates(paint: Painter, tasks: seq<Task>, ms: seq<Message>) {
    && |ms| == 2 * |tasks| + 1
    && ms[2 * |tasks|] == Request
    && forall i | 0 <= i < |tasks| :: ms[2 * i] == Request && ms[2 * i + 1] == Reply(ResultFor(paint, tasks[i]))
  }

  function Turns(paint: Painter, tasks: seq<Task>): seq<Message> {
    if tasks == [] then [Request]
    else [Request, Reply(ResultFor(paint, tasks[0]))] + Turns(paint, tasks[1..])
  }

  /** Where each message of one more turn lies. */
  lemma TwoMore(a: Message, b: Message, later: seq<Message>)
    ensures var ms := [a, b] + later;
            && |ms| == |later| + 2 && ms[0] == a && ms[1] == b
            && forall k: nat, shifted: nat | shifted == k + 2 && k < |later| :: ms[shifted] == later[k]
  {
  }

  lemma {:induction false} TurnsAlternate(paint: Painter, tasks: seq<Task>)
    ensures Alternates(paint, tasks, Turns(paint, tasks))
  {
    if tasks != [] {
      var later := Turns(paint, tasks[1..]);
      TurnsAlternate(paint, tasks[1..]);
      TwoMore(Request, Reply(ResultFor(paint, tasks[0])), later);
      forall i | 0 <= i < |tasks|
        ensures Turns(paint, tasks)[2 * i] == Request
        ensures Turns(paint, tasks)[2 * i + 1] == Reply(ResultFor(paint, tasks[i]))
      {
        if i > 0 {
          assert tasks[1..][i - 1] == tasks[i];
          assert later[2 * (i - 1)] == Request && later[2 * (i - 1) + 1] == Reply(ResultFor(paint, tasks[i]));
        }
      }
    }
  }

  /**
   * A worker that is sent tasks and then a termination writes one request before each of them, and after
   * each task its result; it reads nothing behind the termination.
   */
  lemma {:induction false} WorkerSession(paint: Painter, tasks: seq<Task>, rest: seq<Byte>)
    ensures Alternates(paint, tasks, Turns(paint, tasks))
    ensures WorkerOutput(paint, EncodeAll(Orders(tasks)) + rest) == EncodeAll(Turns(paint, tasks))
  {
    TurnsAlternate(paint, tasks);
    if tasks == [] {
      ReadEncoded(Terminate, rest);
      assert EncodeAll([Terminate]) == Encode(Terminate) + [];
      assert EncodeAll([Request]) == Encode(Request) + [];
    } else {
      var t, later := tasks[0], EncodeAll(Orders(tasks[1..])) + rest;
      WorkerSession(paint, tasks[1..], rest);
      ReadEncoded(Work(t), later);
      FirstOrder(tasks, rest);
      FirstTurn(paint, tasks);
    }
  }

  lemma FirstOrder(tasks: seq<Task>, rest: seq<Byte>)
    requires tasks != []
    ensures EncodeAll(Orders(tasks)) + rest == Encode(Work(tasks[0])) + (EncodeAll(Orders(tasks[1..])) + rest)
  {
    assert Orders(tasks)[1..] == Orders(tasks[1..]);
  }

  lemma FirstTurn(paint: Painter, tasks: seq<Task>)
    requires tasks != []
    ensures EncodeAll(Turns(paint, tasks))
            == Encode(Request) + (EncodeResult(ResultFor(paint, tasks[0])) + EncodeAll(Turns(paint, tasks[1..])))
  {
    var r, later := Reply(ResultFor(paint, tasks[0])), Turns(paint, tasks[1..]);
    assert Turns(paint, tasks)[1..] == [r] + later;
    assert ([r] + later)[1..] == later;
  }

  /**
   * What follows the request in the output of a worker that got one task and may have broken off
   * anywhere: the master reads nothing or the task's rows, and what is left is part of a next request.
   */
  lemma WorkerAnswers(paint: Painter, t: Task, w: seq<Byte>)
    requires FillsRows(paint) && TaskFits(t) && w <= WorkerTail(paint, EncodeTask(t))
    ensures w <= WorkerReply(paint, EncodeTask(t)) || WorkerReply(paint, EncodeTask(t)) <= w
    ensures var r := ReadResult(w); r.Got? ==> r.value == ResultFor(paint, t) && r.rest <= Encode(Request)
    ensures var r := ReadResult(w); r.Got? ==>
              && r.value.startRow == t.startRow && r.value.numRows == t.numRows
              && HoldsRows(r.value.pixels, paint, ViewOf(t), t.startRow, t.numRows)
    ensures ReadResult(w).Got? <==> WorkerReply(paint, EncodeTask(t)) <= w
  {
    OneTaskTail(paint, t);
    ResultForSized(paint, t);
    var reply := EncodeResult(ResultFor(paint, t));
    PrefixCut(reply, Encode(Request), w);
    BlockHoldsRows(paint, ViewOf(t), t.startRow, t.numRows);
    if |w| < |reply| {
      TruncatedResultFails(ResultFor(paint, t), w);
    } else {
      ReadEncodedResult(ResultFor(paint, t), w[|reply|..]);
      assert w == reply + w[|reply|..];
    }
  }
}
