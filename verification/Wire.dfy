/** The messages between master and workers: their layout, their readers, and the socket calls. */
module Wire {
  import opened Bytes
  import opened Transport

  const OPCODE_REQUEST: U32 := 0
  const OPCODE_WORK: U32 := 1
  const OPCODE_TERMINATE: U32 := 2
  const OPCODE_RESULT: U32 := 3

  /** A double travels as its eight raw bytes; both ends run on the same kind of machine. */
  type Double = s: seq<Byte> | |s| == 8 witness [0, 0, 0, 0, 0, 0, 0, 0]

  datatype Task = Task(width: U32, height: U32, startRow: U32, numRows: U32, maxIter: U32,
                       centerX: Double, centerY: Double, zoom: Double)

  datatype Result = Result(startRow: U32, numRows: U32, width: U32, pixels: seq<Byte>)

  /** `num_rows * width` in 32-bit arithmetic, the pixel count both ends use. */
  function PixelBytes(numRows: U32, width: U32): U32 {
    Wrap32(numRows * width)
  }

  /** The pixel buffer has the size both ends compute. */
  predicate Sized(r: Result) {
    |r.pixels| == PixelBytes(r.numRows, r.width)
  }

  datatype Message = Request | Work(task: Task) | Terminate | Reply(result: Result)

  // ---- Layout -----------------------------------------------------------------------------

  function TaskWords(t: Task): (b: seq<Byte>)
    ensures |b| == 20
  {
    EncodeU32(t.width) + EncodeU32(t.height) + EncodeU32(t.startRow) + EncodeU32(t.numRows) + EncodeU32(t.maxIter)
  }

  function EncodeTask(t: Task): (b: seq<Byte>)
    ensures |b| == 48
  {
    EncodeU32(OPCODE_WORK) + TaskWords(t) + t.centerX + t.centerY + t.zoom
  }

  function ResultWords(r: Result): (b: seq<Byte>)
    ensures |b| == 12
  {
    EncodeU32(r.startRow) + EncodeU32(r.numRows) + EncodeU32(r.width)
  }

  function EncodeResult(r: Result): seq<Byte> {
    EncodeU32(OPCODE_RESULT) + ResultWords(r) + r.pixels
  }

  function Encode(m: Message): seq<Byte> {
    match m
    case Request => EncodeU32(OPCODE_REQUEST)
    case Work(t) => EncodeTask(t)
    case Terminate => EncodeU32(OPCODE_TERMINATE)
    case Reply(r) => EncodeResult(r)
  }

  /** Where the fields of a task lie, behind its opcode. */
  lemma TaskLayout(t: Task)
    ensures var b := EncodeTask(t);
            && b[..4] == [0, 0, 0, 1] && b[4..8] == EncodeU32(t.width) && b[8..12] == EncodeU32(t.height)
            && b[12..16] == EncodeU32(t.startRow) && b[16..20] == EncodeU32(t.numRows)
            && b[20..24] == EncodeU32(t.maxIter)
            && b[24..32] == t.centerX && b[32..40] == t.centerY && b[40..] == t.zoom
  {
    assert EncodeU32(OPCODE_WORK) == [0, 0, 0, 1];
  }

  /** Where the fields of a result lie, and the two messages that are only an opcode. */
  lemma ResultLayout(r: Result)
    ensures var b := EncodeResult(r);
            && |b| >= 16
            && b[..4] == [0, 0, 0, 3] && b[4..8] == EncodeU32(r.startRow) && b[8..12] == EncodeU32(r.numRows)
            && b[12..16] == EncodeU32(r.width) && b[16..] == r.pixels
    ensures Encode(Request) == [0, 0, 0, 0] && Encode(Terminate) == [0, 0, 0, 2]
  {
    assert EncodeU32(OPCODE_RESULT) == [0, 0, 0, 3];
  }

  // ---- Readers ----------------------------------------------------------------------------

  /** What a reader finds at the front of a stream, and the bytes it leaves there. */
  datatype Reading<+T> = Failed | Got(value: T, rest: seq<Byte>)

  function WordsToTask(b: seq<Byte>, centerX: Double, centerY: Double, zoom: Double): Task
    requires |b| == 20
  {
    Task(DecodeU32(b[..4]), DecodeU32(b[4..8]), DecodeU32(b[8..12]), DecodeU32(b[12..16]), DecodeU32(b[16..20]),
         centerX, centerY, zoom)
  }

  /** What `recv_task` accepts: a task or a termination. */
  function ReadTask(s: seq<Byte>): Reading<Message> {
    if |s| < 4 then Failed
    else if DecodeU32(s[..4]) == OPCODE_TERMINATE then Got(Terminate, s[4..])
    else if DecodeU32(s[..4]) != OPCODE_WORK || |s| < 48 then Failed
    else Got(Work(WordsToTask(s[4..24], s[24..32], s[32..40], s[40..48])), s[48..])
  }

  /** What `recv_result` accepts. */
  function ReadResult(s: seq<Byte>): (r: Reading<Result>)
    ensures r.Got? ==> Sized(r.value)
  {
    if |s| < 16 || DecodeU32(s[..4]) != OPCODE_RESULT then Failed
    else
      var startRow, numRows, width := DecodeU32(s[4..8]), DecodeU32(s[8..12]), DecodeU32(s[12..16]);
      var n := PixelBytes(numRows, width);
      if |s| < 16 + n then Failed
      else Got(Result(startRow, numRows, width, s[16..16 + n]), s[16 + n..])
  }

  /** What `recv_work_request` accepts. */
  function ReadRequest(s: seq<Byte>): Reading<Message> {
    if |s| < 4 || DecodeU32(s[..4]) != OPCODE_REQUEST then Failed else Got(Request, s[4..])
  }

  /** The receiving call a program makes next. */
  datatype Receiver = RecvTaskCall | RecvResultCall | RecvRequestCall

  function ReceiverOf(m: Message): Receiver {
    match m
    case Request => RecvRequestCall
    case Work(_) => RecvTaskCall
    case Terminate => RecvTaskCall
    case Reply(_) => RecvResultCall
  }

  function Read(call: Receiver, s: seq<Byte>): Reading<Message> {
    match call
    case RecvTaskCall => ReadTask(s)
    case RecvRequestCall => ReadRequest(s)
    case RecvResultCall =>
      match ReadResult(s)
      case Failed => Failed
      case Got(r, rest) => Got(Reply(r), rest)
  }

  predicate Sendable(m: Message) {
    m.Reply? ==> Sized(m.result)
  }

  predicate AllSendable(ms: seq<Message>) {
    forall i | 0 <= i < |ms| :: Sendable(ms[i])
  }

  // ---- Round trips ------------------------------------------------------------------------

  lemma ReadEncodedTask(t: Task, rest: seq<Byte>)
    ensures ReadTask(EncodeTask(t) + rest) == Got(Work(t), rest)
  {
    var s := EncodeTask(t) + rest;
    U32RoundTrip(OPCODE_WORK);
    U32RoundTrip(t.width); U32RoundTrip(t.height); U32RoundTrip(t.startRow); U32RoundTrip(t.numRows);
    U32RoundTrip(t.maxIter);
    assert s[..4] == EncodeU32(OPCODE_WORK) && s[4..24] == TaskWords(t) && s[48..] == rest;
    var w := s[4..24];
    assert w[..4] == EncodeU32(t.width) && w[4..8] == EncodeU32(t.height) && w[8..12] == EncodeU32(t.startRow);
    assert w[12..16] == EncodeU32(t.numRows) && w[16..20] == EncodeU32(t.maxIter);
    assert s[24..32] == t.centerX && s[32..40] == t.centerY && s[40..48] == t.zoom;
  }

  lemma ReadEncodedResult(r: Result, rest: seq<Byte>)
    requires Sized(r)
    ensures ReadResult(EncodeResult(r) + rest) == Got(r, rest)
  {
    var s := EncodeResult(r) + rest;
    U32RoundTrip(OPCODE_RESULT);
    U32RoundTrip(r.startRow); U32RoundTrip(r.numRows); U32RoundTrip(r.width);
    assert s[..4] == EncodeU32(OPCODE_RESULT) && s[4..8] == EncodeU32(r.startRow);
    assert s[8..12] == EncodeU32(r.numRows) && s[12..16] == EncodeU32(r.width);
    assert s[16..16 + |r.pixels|] == r.pixels && s[16 + |r.pixels|..] == rest;
  }

  /** The matching receiver takes back exactly the message and leaves exactly what follows it. */
  lemma ReadEncoded(m: Message, rest: seq<Byte>)
    requires Sendable(m)
    ensures Read(ReceiverOf(m), Encode(m) + rest) == Got(m, rest)
  {
    match m
    case Work(t) => ReadEncodedTask(t, rest);
    case Reply(r) => ReadEncodedResult(r, rest);
    case Request =>
      U32RoundTrip(OPCODE_REQUEST);
      assert (Encode(m) + rest)[..4] == Encode(m);
      assert (Encode(m) + rest)[4..] == rest;
    case Terminate =>
      U32RoundTrip(OPCODE_TERMINATE);
      assert (Encode(m) + rest)[..4] == Encode(m);
      assert (Encode(m) + rest)[4..] == rest;
  }

  function OpcodeOf(m: Message): U32 {
    match m
    case Request => OPCODE_REQUEST
    case Work(_) => OPCODE_WORK
    case Terminate => OPCODE_TERMINATE
    case Reply(_) => OPCODE_RESULT
  }

  lemma OpcodeFirst(m: Message, rest: seq<Byte>)
    ensures |Encode(m) + rest| >= 4 && DecodeU32((Encode(m) + rest)[..4]) == OpcodeOf(m)
  {
    U32RoundTrip(OpcodeOf(m));
    assert (Encode(m) + rest)[..4] == EncodeU32(OpcodeOf(m));
  }

  /** A receiver never takes a message that is not meant for it. */
  lemma WrongReceiverFails(m: Message, call: Receiver, rest: seq<Byte>)
    requires call != ReceiverOf(m)
    ensures Read(call, Encode(m) + rest) == Failed
  {
    OpcodeFirst(m, rest);
  }

  /** A result that was cut short is never mistaken for a complete one. */
  lemma TruncatedResultFails(r: Result, part: seq<Byte>)
    requires Sized(r)
    ensures part < EncodeResult(r) ==> ReadResult(part) == Failed
  {
    if part < EncodeResult(r) && |part| >= 16 {
      var whole := EncodeResult(r);
      ReadEncodedResult(r, []);
      assert whole + [] == whole;
      assert part[..4] == whole[..4] && part[4..8] == whole[4..8] && part[8..12] == whole[8..12];
      assert part[12..16] == whole[12..16];
      assert |whole| == 16 + |r.pixels|;
    }
  }

  function EncodeAll(ms: seq<Message>): seq<Byte> {
    if ms == [] then [] else Encode(ms[0]) + EncodeAll(ms[1..])
  }

  function Receivers(ms: seq<Message>): (calls: seq<Receiver>)
    ensures |calls| == |ms|
  {
    seq(|ms|, i requires 0 <= i < |ms| => ReceiverOf(ms[i]))
  }

  /** The messages a sequence of receiving calls yields, or a failure. */
  function ReadAll(calls: seq<Receiver>, s: seq<Byte>): Reading<seq<Message>> {
    if calls == [] then Got([], s)
    else
      match Read(calls[0], s)
      case Failed => Failed
      case Got(m, rest) =>
        match ReadAll(calls[1..], rest)
        case Failed => Failed
        case Got(ms, end) => Got([m] + ms, end)
  }

  lemma FirstReceiver(ms: seq<Message>)
    requires ms != []
    ensures Receivers(ms)[0] == ReceiverOf(ms[0]) && Receivers(ms)[1..] == Receivers(ms[1..])
    ensures [ms[0]] + ms[1..] == ms
  {
  }

  /** A whole conversation decodes to itself with no byte left over. */
  lemma {:induction false} ReadAllEncoded(ms: seq<Message>)
    requires AllSendable(ms)
    ensures ReadAll(Receivers(ms), EncodeAll(ms)) == Got(ms, [])
  {
    if ms != [] {
      ReadEncoded(ms[0], EncodeAll(ms[1..]));
      ReadAllEncoded(ms[1..]);
      FirstReceiver(ms);
    }
  }

  // ---- Socket calls -----------------------------------------------------------------------

  /** `send_all` of one field of a message of which `done` has been sent. */
  method SendField(stream: Stream, field: seq<Byte>,
                   ghost before: seq<Byte>, ghost done: seq<Byte>, ghost rest: seq<Byte>)
    returns (r: int)
    requires stream.bytes == before + done
    modifies stream`bytes, stream`sendCalls
    ensures r >= 0 ==> stream.bytes == before + (done + field)
    ensures before <= stream.bytes <= before + (done + field + rest)
    ensures stream.Healthy() ==> r >= 0
  {
    r := SendAll(stream, field);
    assert before + done + field == before + (done + field);
    assert before + (done + field + rest) == before + done + field + rest;
  }

  /** A message of five fields, cut behind each of them. */
  lemma FieldSplits(a: seq<Byte>, b: seq<Byte>, c: seq<Byte>, d: seq<Byte>, e: seq<Byte>)
    ensures [] + a + (b + c + d + e) == a + b + c + d + e
    ensures [] + a + b + (c + d + e) == a + b + c + d + e
    ensures [] + a + b + c + (d + e) == a + b + c + d + e
    ensures [] + a + b + c + d + e + [] == [] + a + b + c + d + e == a + b + c + d + e
  {
    assert [] + a == a;
  }

  method SendTask(stream: Stream, t: Task) returns (rc: int)
    modifies stream`bytes, stream`sendCalls
    ensures rc == 0 || rc == -1
    ensures rc == 0 ==> stream.bytes == old(stream.bytes) + EncodeTask(t)
    ensures old(stream.bytes) <= stream.bytes <= old(stream.bytes) + EncodeTask(t)
    ensures stream.Healthy() ==> rc == 0
  {
    ghost var s, a, b := stream.bytes, EncodeU32(OPCODE_WORK), TaskWords(t);
    FieldSplits(a, b, t.centerX, t.centerY, t.zoom);
    var r := SendField(stream, EncodeU32(OPCODE_WORK), s, [], b + t.centerX + t.centerY + t.zoom);
    if r < 0 {
      return -1;
    }
    r := SendField(stream, TaskWords(t), s, [] + a, t.centerX + t.centerY + t.zoom);
    if r < 0 {
      return -1;
    }
    r := SendField(stream, t.centerX, s, [] + a + b, t.centerY + t.zoom);
    if r < 0 {
      return -1;
    }
    r := SendField(stream, t.centerY, s, [] + a + b + t.centerX, t.zoom);
    if r < 0 {
      return -1;
    }
    r := SendField(stream, t.zoom, s, [] + a + b + t.centerX + t.centerY, []);
    if r < 0 {
      return -1;
    }
    return 0;
  }

  /** `recv_all` into a fresh buffer of n bytes. */
  method RecvBytes(stream: Stream, n: nat) returns (r: int, data: seq<Byte>)
    modifies stream`bytes, stream`recvCalls
    ensures r >= 0 ==>
      && |old(stream.bytes)| >= n && stream.bytes == old(stream.bytes)[n..]
      && data == old(stream.bytes)[..n]
    ensures |data| == n && Rest(stream.bytes, old(stream.bytes))
    ensures stream.Healthy() ==> (r < 0 <==> |old(stream.bytes)| < n)
  {
    var buffer := new Byte[n];
    r := RecvAll(stream, buffer, n);
    data := buffer[..n];
  }

  method RecvOpcode(stream: Stream) returns (r: int, opcode: U32)
    modifies stream`bytes, stream`recvCalls
    ensures r >= 0 ==>
      && |old(stream.bytes)| >= 4 && stream.bytes == old(stream.bytes)[4..]
      && opcode == DecodeU32(old(stream.bytes)[..4])
    ensures Rest(stream.bytes, old(stream.bytes))
    ensures stream.Healthy() ==> (r < 0 <==> |old(stream.bytes)| < 4)
  {
    var word;
    r, word := RecvBytes(stream, 4);
    opcode := DecodeU32(word);
  }

  /** The last three fields of a task. */
  method RecvDoubles(stream: Stream) returns (r: int, centerX: Double, centerY: Double, zoom: Double)
    modifies stream`bytes, stream`recvCalls
    ensures r >= 0 ==>
      && |old(stream.bytes)| >= 24 && stream.bytes == old(stream.bytes)[24..]
      && centerX == old(stream.bytes)[..8] && centerY == old(stream.bytes)[8..16] && zoom == old(stream.bytes)[16..24]
    ensures Rest(stream.bytes, old(stream.bytes))
    ensures stream.Healthy() ==> (r < 0 <==> |old(stream.bytes)| < 24)
  {
    ghost var s := stream.bytes;
    centerY, zoom := ZERO_DOUBLE, ZERO_DOUBLE;
    r, centerX := RecvBytes(stream, 8);
    if r < 0 {
      return;
    }
    ThreeParts(s);
    r, centerY := RecvBytes(stream, 8);
    if r < 0 {
      return;
    }
    r, zoom := RecvBytes(stream, 8);
  }

  lemma ThreeParts(s: seq<Byte>)
    requires |s| >= 8
    ensures |s| >= 16 ==> s[8..][..8] == s[8..16] && s[8..][8..] == s[16..]
    ensures |s| >= 24 ==> s[16..][..8] == s[16..24] && s[16..][8..] == s[24..]
  {
  }

  /** `recv_task`: 0 for a task, 1 for a termination, -1 otherwise. */
  method RecvTask(stream: Stream) returns (rc: int, t: Task)
    modifies stream`bytes, stream`recvCalls
    ensures rc == 0 || rc == 1 || rc == -1
    ensures rc == 0 ==> ReadTask(old(stream.bytes)) == Got(Work(t), stream.bytes)
    ensures rc == 1 ==> ReadTask(old(stream.bytes)) == Got(Terminate, stream.bytes)
    ensures Rest(stream.bytes, old(stream.bytes))
    ensures stream.Healthy() ==> (rc == -1 <==> ReadTask(old(stream.bytes)) == Failed)
  {
    ghost var s := stream.bytes;
    t := Task(0, 0, 0, 0, 0, ZERO_DOUBLE, ZERO_DOUBLE, ZERO_DOUBLE);
    var r, opcode := RecvOpcode(stream);
    if r < 0 {
      return -1, t;
    }
    if opcode == OPCODE_TERMINATE {
      return 1, t;
    }
    if opcode != OPCODE_WORK {
      return -1, t;
    }
    var words;
    r, words := RecvBytes(stream, 20);
    if r < 0 {
      return -1, t;
    }
    assert words == s[4..24] && stream.bytes == s[24..];
    var centerX, centerY, zoom;
    r, centerX, centerY, zoom := RecvDoubles(stream);
    if r < 0 {
      return -1, t;
    }
    ghost var u := s[24..];
    assert u[..8] == s[24..32] && u[8..16] == s[32..40] && u[16..24] == s[40..48] && u[24..] == s[48..];
    t := WordsToTask(words, centerX, centerY, zoom);
    return 0, t;
  }

  const ZERO_DOUBLE: Double := [0, 0, 0, 0, 0, 0, 0, 0]

  method SendResult(stream: Stream, r: Result) returns (rc: int)
    requires Sized(r)
    modifies stream`bytes, stream`sendCalls
    ensures rc == 0 || rc == -1
    ensures rc == 0 ==> stream.bytes == old(stream.bytes) + EncodeResult(r)
    ensures old(stream.bytes) <= stream.bytes <= old(stream.bytes) + EncodeResult(r)
    ensures stream.Healthy() ==> rc == 0
  {
    var n := SendAll(stream, EncodeU32(OPCODE_RESULT));
    if n < 0 {
      return -1;
    }
    n := SendAll(stream, ResultWords(r));
    if n < 0 {
      return -1;
    }
    n := SendAll(stream, r.pixels);
    if n < 0 {
      return -1;
    }
    return 0;
  }

  /** The three words of a result. */
  method RecvHeader(stream: Stream) returns (r: int, startRow: U32, numRows: U32, width: U32)
    modifies stream`bytes, stream`recvCalls
    ensures r >= 0 ==>
      && |old(stream.bytes)| >= 12 && stream.bytes == old(stream.bytes)[12..]
      && startRow == DecodeU32(old(stream.bytes)[..4]) && numRows == DecodeU32(old(stream.bytes)[4..8])
      && width == DecodeU32(old(stream.bytes)[8..12])
    ensures Rest(stream.bytes, old(stream.bytes))
    ensures stream.Healthy() ==> (r < 0 <==> |old(stream.bytes)| < 12)
  {
    var header;
    r, header := RecvBytes(stream, 12);
    startRow, numRows, width := DecodeU32(header[..4]), DecodeU32(header[4..8]), DecodeU32(header[8..12]);
  }

  /** A result as the reader sees it, opcode, header and pixels one after the other. */
  lemma ResultInPieces(s: seq<Byte>)
    requires |s| >= 16 && DecodeU32(s[..4]) == OPCODE_RESULT
    ensures s[4..][12..] == s[16..]
    ensures var startRow, numRows, width := DecodeU32(s[4..][..4]), DecodeU32(s[4..][4..8]), DecodeU32(s[4..][8..12]);
            var n := PixelBytes(numRows, width);
            ReadResult(s) == if |s[16..]| < n then Failed
                             else Got(Result(startRow, numRows, width, s[16..][..n]), s[16..][n..])
  {
    var t := s[4..];
    assert t[..4] == s[4..8] && t[4..8] == s[8..12] && t[8..12] == s[12..16] && t[12..] == s[16..];
    var n := PixelBytes(DecodeU32(s[8..12]), DecodeU32(s[12..16]));
    if n <= |s[16..]| {
      assert s[16..][..n] == s[16..16 + n] && s[16..][n..] == s[16 + n..];
    }
  }

  method RecvResult(stream: Stream) returns (rc: int, r: Result)
    modifies stream`bytes, stream`recvCalls
    ensures rc == 0 || rc == -1
    ensures rc == 0 ==> ReadResult(old(stream.bytes)) == Got(r, stream.bytes)
    ensures Rest(stream.bytes, old(stream.bytes))
    ensures stream.Healthy() ==> (rc == -1 <==> ReadResult(old(stream.bytes)) == Failed)
  {
    ghost var s := stream.bytes;
    r := Result(0, 0, 0, []);
    var n, opcode := RecvOpcode(stream);
    if n < 0 {
      return -1, r;
    }
    if opcode != OPCODE_RESULT {
      return -1, r;
    }
    var startRow, numRows, width;
    n, startRow, numRows, width := RecvHeader(stream);
    if n < 0 {
      return -1, r;
    }
    ResultInPieces(s);
    var pixelBytes := PixelBytes(numRows, width);
    var pixels;
    n, pixels := RecvBytes(stream, pixelBytes);
    if n < 0 {
      return -1, r;
    }
    return 0, Result(startRow, numRows, width, pixels);
  }

  method SendWorkRequest(stream: Stream) returns (rc: int)
    modifies stream`bytes, stream`sendCalls
    ensures rc >= 0 ==> stream.bytes == old(stream.bytes) + Encode(Request)
    ensures old(stream.bytes) <= stream.bytes <= old(stream.bytes) + Encode(Request)
    ensures stream.Healthy() ==> rc >= 0
  {
    rc := SendAll(stream, EncodeU32(OPCODE_REQUEST));
  }

  method RecvWorkRequest(stream: Stream) returns (rc: int)
    modifies stream`bytes, stream`recvCalls
    ensures rc == 0 || rc == -1
    ensures rc == 0 ==> ReadRequest(old(stream.bytes)) == Got(Request, stream.bytes)
    ensures Rest(stream.bytes, old(stream.bytes))
    ensures stream.Healthy() ==> (rc == -1 <==> ReadRequest(old(stream.bytes)) == Failed)
  {
    var n, opcode := RecvOpcode(stream);
    if n < 0 {
      return -1;
    }
    return if opcode != OPCODE_REQUEST then -1 else 0;
  }

  method SendTerminate(stream: Stream) returns (rc: int)
    modifies stream`bytes, stream`sendCalls
    ensures rc == 0 || rc == -1
    ensures rc == 0 ==> stream.bytes == old(stream.bytes) + Encode(Terminate)
    ensures old(stream.bytes) <= stream.bytes <= old(stream.bytes) + Encode(Terminate)
    ensures stream.Healthy() ==> rc == 0
  {
    var n := SendAll(stream, EncodeU32(OPCODE_TERMINATE));
    return if n < 0 then -1 else 0;
  }

  method SendMessage(stream: Stream, m: Message) returns (ok: bool)
    requires Sendable(m)
    modifies stream`bytes, stream`sendCalls
    ensures ok ==> stream.bytes == old(stream.bytes) + Encode(m)
    ensures old(stream.bytes) <= stream.bytes <= old(stream.bytes) + Encode(m)
    ensures stream.Healthy() ==> ok
  {
    var rc: int;
    match m {
      case Request => rc := SendWorkRequest(stream);
      case Work(t) => rc := SendTask(stream, t);
      case Terminate => rc := SendTerminate(stream);
      case Reply(r) => rc := SendResult(stream, r);
    }
    ok := rc >= 0;
  }

  method RecvMessage(stream: Stream, call: Receiver) returns (ok: bool, m: Message)
    modifies stream`bytes, stream`recvCalls
    ensures ok ==> Read(call, old(stream.bytes)) == Got(m, stream.bytes)
    ensures Rest(stream.bytes, old(stream.bytes))
    ensures stream.Healthy() ==> (ok <==> Read(call, old(stream.bytes)).Got?)
  {
    m := Request;
    match call {
      case RecvTaskCall =>
        var rc, t := RecvTask(stream);
        ok, m := rc >= 0, if rc == 1 then Terminate else Work(t);
      case RecvRequestCall =>
        var rc := RecvWorkRequest(stream);
        ok := rc >= 0;
      case RecvResultCall =>
        var rc, r := RecvResult(stream);
        ok, m := rc >= 0, Reply(r);
    }
  }

  lemma {:induction false} EncodeAllSnoc(ms: seq<Message>, m: Message)
    ensures EncodeAll(ms + [m]) == EncodeAll(ms) + Encode(m)
  {
    if ms == [] {
      assert ms + [m] == [m] && [m][1..] == [];
    } else {
      assert (ms + [m])[1..] == ms[1..] + [m];
      EncodeAllSnoc(ms[1..], m);
    }
  }

  /** The stream holds the messages from i on that have been sent and not yet received. */
  predicate Unread(bytes: seq<Byte>, ms: seq<Message>, i: nat, sent: nat) {
    i <= sent <= |ms| && bytes == EncodeAll(ms[i..sent])
  }

  lemma UnreadSnoc(bytes: seq<Byte>, ms: seq<Message>, i: nat, sent: nat)
    requires Unread(bytes, ms, i, sent) && sent < |ms|
    ensures Unread(bytes + Encode(ms[sent]), ms, i, sent + 1)
  {
    assert ms[i..sent + 1] == ms[i..sent] + [ms[sent]];
    EncodeAllSnoc(ms[i..sent], ms[sent]);
  }

  method SendNext(stream: Stream, ms: seq<Message>, sent: nat, ghost i: nat)
    requires stream.Healthy() && sent < |ms| && AllSendable(ms) && Unread(stream.bytes, ms, i, sent)
    modifies stream`bytes, stream`sendCalls
    ensures Unread(stream.bytes, ms, i, sent + 1)
  {
    UnreadSnoc(stream.bytes, ms, i, sent);
    var ok := SendMessage(stream, ms[sent]);
  }

  method RecvNext(stream: Stream, call: Receiver, ghost ms: seq<Message>, ghost i: nat, ghost sent: nat)
    returns (m: Message)
    requires stream.Healthy() && i < sent && Unread(stream.bytes, ms, i, sent)
    requires AllSendable(ms) && call == ReceiverOf(ms[i])
    modifies stream`bytes, stream`recvCalls
    ensures m == ms[i] && Unread(stream.bytes, ms, i + 1, sent)
  {
    assert ms[i..sent][1..] == ms[i + 1..sent];
    ReadEncoded(ms[i], EncodeAll(ms[i + 1..sent]));
    var ok;
    ok, m := RecvMessage(stream, call);
  }

  method ReceiveInto(stream: Stream, before: seq<Message>, ms: seq<Message>, ghost sent: nat)
    returns (received: seq<Message>)
    requires stream.Healthy() && |before| < sent && Unread(stream.bytes, ms, |before|, sent)
    requires AllSendable(ms) && before <= ms
    modifies stream`bytes, stream`recvCalls
    ensures |received| == |before| + 1 && received <= ms && Unread(stream.bytes, ms, |received|, sent)
  {
    var m := RecvNext(stream, ReceiverOf(ms[|before|]), ms, |before|, sent);
    PrefixGrows(before, ms);
    received := before + [m];
  }

  lemma PrefixGrows(before: seq<Message>, ms: seq<Message>)
    requires before <= ms && |before| < |ms|
    ensures before + [ms[|before|]] <= ms
  {
  }

  /**
   * Sends a conversation and receives it with the matching calls, in any order in which a message is
   * sent before it is received.  Every call on the stream may move any positive number of bytes; the
   * stream always holds the encodings of the unread messages, and what arrives is what was sent.
   */
  method Converse(stream: Stream, ms: seq<Message>, eager: nat -> bool) returns (received: seq<Message>)
    requires stream.Healthy() && stream.bytes == [] && AllSendable(ms)
    modifies stream`bytes, stream`sendCalls, stream`recvCalls
    ensures received == ms && stream.bytes == []
  {
    received := [];
    var sent, turn := 0, 0;
    NothingUnread(ms, 0, []);
    while |received| < |ms|
      invariant |received| <= sent <= |ms| && received <= ms
      invariant Unread(stream.bytes, ms, |received|, sent)
      decreases 2 * |ms| - sent - |received|
    {
      if sent < |ms| && (eager(turn) || sent == |received|) {
        SendNext(stream, ms, sent, |received|);
        sent := sent + 1;
      } else {
        received := ReceiveInto(stream, received, ms, sent);
      }
      turn := turn + 1;
    }
    NothingUnread(ms, |ms|, stream.bytes);
  }

  lemma NothingUnread(ms: seq<Message>, i: nat, bytes: seq<Byte>)
    requires i <= |ms|
    ensures Unread(bytes, ms, i, i) <==> bytes == []
  {
    assert ms[i..i] == [];
  }
}
