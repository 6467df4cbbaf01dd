/**
 * The two servers of the key-value store, the requests their client builds, and the reference answer
 * both must give.
 */
module KvServers {
  import opened Bytes
  import opened KvStore

  const PROTOCOL_VERSION := 1
  const OP_SET := 1
  const OP_GET := 2
  const OP_DEL := 3
  const STATUS_SUCCESS := 0
  const STATUS_NOT_FOUND := 1
  const STATUS_ERROR := 2

  type U16 = x: int | 0 <= x < 0x1_0000

  function EncodeU16(x: U16): (b: seq<Byte>)
    ensures |b| == 2
  {
    [(x / 0x100) as Byte, (x % 0x100) as Byte]
  }

  function DecodeU16(b: seq<Byte>): U16
    requires |b| == 2
  {
    b[0] as int * 0x100 + b[1] as int
  }

  lemma U16RoundTrip(x: U16)
    ensures DecodeU16(EncodeU16(x)) == x
  {
  }

  /** MAX_PAYLOAD. */
  function MaxPayload(l: Limits): nat {
    l.keySize + l.valueSize + 2
  }

  /** The store fits the length field, and a value with its NUL fits a payload. */
  predicate ValidLimits(l: Limits) {
    l.keySize > 0 && l.valueSize > 0 && MaxPayload(l) < 0x1_0000_0000
  }

  function Header(code: U16, length: U32): (h: seq<Byte>)
    ensures |h| == 8
  {
    EncodeU16(PROTOCOL_VERSION) + EncodeU16(code) + EncodeU32(length)
  }

  function Version(h: seq<Byte>): U16
    requires |h| >= 8
  {
    DecodeU16(h[..2])
  }

  function Opcode(h: seq<Byte>): U16
    requires |h| >= 8
  {
    DecodeU16(h[2..4])
  }

  function Length(h: seq<Byte>): U32
    requires |h| >= 8
  {
    DecodeU32(h[4..8])
  }

  lemma HeaderFields(code: U16, length: U32, rest: seq<Byte>)
    ensures var h := Header(code, length) + rest;
            Version(h) == PROTOCOL_VERSION && Opcode(h) == code && Length(h) == length
  {
    var h := Header(code, length) + rest;
    U16RoundTrip(PROTOCOL_VERSION);
    U16RoundTrip(code);
    U32RoundTrip(length);
    assert h[..2] == EncodeU16(PROTOCOL_VERSION) && h[2..4] == EncodeU16(code) && h[4..8] == EncodeU32(length);
  }

  // ---- Reference: requests and their answers -------------------------------------------------

  datatype Request = SetReq(key: seq<Byte>, value: seq<Byte>) | GetReq(key: seq<Byte>) | DelReq(key: seq<Byte>)

  datatype Answer = Answer(status: U16, body: seq<Byte>)

  /** The store after a request. */
  function Apply(l: Limits, m: Table, q: Request): Table {
    match q
    case SetReq(key, value) => SetMap(l, m, key, value)
    case GetReq(_) => m
    case DelReq(key) => m - {key}
  }

  /** The answer to a request; a value is sent with its NUL. */
  function Reply(l: Limits, m: Table, q: Request): Answer {
    match q
    case SetReq(key, value) => Answer(if SetSucceeds(l, m, key, value) then STATUS_SUCCESS else STATUS_ERROR, [])
    case GetReq(key) => if key in m then Answer(STATUS_SUCCESS, m[key] + [0]) else Answer(STATUS_NOT_FOUND, [])
    case DelReq(key) => Answer(if key in m then STATUS_SUCCESS else STATUS_NOT_FOUND, [])
  }

  function AnswerBytes(a: Answer): seq<Byte>
    requires |a.body| < 0x1_0000_0000
  {
    Header(a.status, |a.body|) + a.body
  }

  // ---- The client's request ------------------------------------------------------------------

  function RequestCode(q: Request): U16 {
    match q
    case SetReq(_, _) => OP_SET
    case GetReq(_) => OP_GET
    case DelReq(_) => OP_DEL
  }

  function Payload(q: Request): seq<Byte> {
    match q
    case SetReq(key, value) => key + [0] + value + [0]
    case GetReq(key) => key + [0]
    case DelReq(key) => key + [0]
  }

  /** What a command line can ask for: strings without NUL that fit the payload buffer. */
  predicate WellFormed(l: Limits, q: Request) {
    0 !in q.key && (q.SetReq? ==> 0 !in q.value) && |Payload(q)| <= MaxPayload(l)
  }

  function RequestBytes(q: Request): seq<Byte>
    requires |Payload(q)| < 0x1_0000_0000
  {
    Header(RequestCode(q), |Payload(q)|) + Payload(q)
  }

  /** The bytes of a request: version, opcode, length, the key with its NUL, and for a SET the value with its. */
  lemma RequestLayout(q: Request)
    requires |Payload(q)| < 0x1_0000_0000
    ensures var r := RequestBytes(q);
            && |r| >= 8
            && r[..4] == [0, 1, 0, if q.SetReq? then 1 else if q.GetReq? then 2 else 3]
            && Length(r) == |r| - 8
            && r[8..] == q.key + [0] + if q.SetReq? then q.value + [0] else []
  {
    HeaderFields(RequestCode(q), |Payload(q)|, Payload(q));
    var r := RequestBytes(q);
    assert r[..4] == EncodeU16(PROTOCOL_VERSION) + EncodeU16(RequestCode(q));
    assert r[8..] == Payload(q);
    if q.SetReq? {
      assert Payload(q) == q.key + [0] + (q.value + [0]);
    }
  }

  /** `memcpy` of a string and its NUL into a buffer. */
  method CopyString(s: seq<Byte>, buffer: array<Byte>, offset: nat)
    requires offset + |s| + 1 <= buffer.Length
    modifies buffer
    ensures buffer[..] == old(buffer[..offset]) + s + [0] + old(buffer[offset + |s| + 1..])
  {
    forall k | 0 <= k < |s| {
      buffer[offset + k] := s[k];
    }
    buffer[offset + |s|] := 0;
  }

  /** The client's command switch: it fills the payload buffer and the header. */
  method BuildRequest(l: Limits, q: Request) returns (datagram: seq<Byte>)
    requires ValidLimits(l) && WellFormed(l, q)
    ensures datagram == RequestBytes(q)
  {
    var payload := new Byte[MaxPayload(l)](i => 0);
    var payloadLen;
    var opcode;
    match q {
      case SetReq(key, value) =>
        opcode := OP_SET;
        CopyString(key, payload, 0);
        CopyString(value, payload, |key| + 1);
        payloadLen := |key| + 1 + |value| + 1;
      case GetReq(key) =>
        opcode := OP_GET;
        payloadLen := |key| + 1;
        CopyString(key, payload, 0);
      case DelReq(key) =>
        opcode := OP_DEL;
        payloadLen := |key| + 1;
        CopyString(key, payload, 0);
    }
    assert payload[..payloadLen] == Payload(q);
    datagram := Header(opcode, payloadLen) + payload[..payloadLen];
  }

  // ---- What a handler makes of a payload buffer ----------------------------------------------

  /** The request a handler sees: strings are read from the buffer up to a NUL, wherever that is. */
  datatype Seen = Valid(q: Request) | Malformed

  function Parse(opcode: U16, length: nat, buffer: seq<Byte>): Seen {
    var key := CStr(buffer);
    if opcode == OP_SET then
      if |key| + 1 >= length || |key| + 1 > |buffer| then Malformed
      else Valid(SetReq(key, CStr(buffer[|key| + 1..])))
    else if opcode == OP_GET then Valid(GetReq(key))
    else if opcode == OP_DEL then Valid(DelReq(key))
    else Malformed
  }

  function SeenMap(l: Limits, m: Table, seen: Seen): Table {
    match seen
    case Valid(q) => Apply(l, m, q)
    case Malformed => m
  }

  function SeenAnswer(l: Limits, m: Table, seen: Seen): Answer {
    match seen
    case Valid(q) => Reply(l, m, q)
    case Malformed => Answer(STATUS_ERROR, [])
  }

  /** The strings a handler reads end inside the buffer, so `strlen` is defined. */
  predicate Terminated(opcode: U16, length: nat, buffer: seq<Byte>) {
    && 0 in buffer
    && (opcode == OP_SET && |CStr(buffer)| + 1 < length ==>
          |CStr(buffer)| + 1 <= |buffer| && 0 in buffer[|CStr(buffer)| + 1..])
  }

  /** A well-formed payload is seen as the request it came from, whatever follows it in the buffer. */
  lemma ParsePayload(l: Limits, q: Request, rest: seq<Byte>)
    requires WellFormed(l, q)
    ensures Parse(RequestCode(q), |Payload(q)|, Payload(q) + rest) == Valid(q)
    ensures Terminated(RequestCode(q), |Payload(q)|, Payload(q) + rest)
  {
    var buffer := Payload(q) + rest;
    assert buffer == q.key + buffer[|q.key|..];
    assert buffer[|q.key|] == 0;
    CStrOf(q.key, buffer[|q.key|..]);
    if q.SetReq? {
      var tail := buffer[|q.key| + 1..];
      assert tail == q.value + tail[|q.value|..];
      assert tail[|q.value|] == 0;
      CStrOf(q.value, tail[|q.value|..]);
    }
  }

  // ---- What an answer says -------------------------------------------------------------------

  /** The eight bytes of an answer without a body. */
  function Plain(status: Byte): seq<Byte> {
    [0, 1, 0, status, 0, 0, 0, 0]
  }

  /** Keys other than the request's are as before. */
  predicate OnlyKey(before: Table, after: Table, key: seq<Byte>) {
    forall k | k in before.Keys + after.Keys && k != key :: k in before && k in after && before[k] == after[k]
  }

  /**
   * What a response means, in bytes: a SET is confirmed exactly when the store now maps the key to the
   * value; a GET brings the value and its NUL, or NOT FOUND; a DEL is confirmed exactly when the key was
   * there, and it is gone.
   */
  ghost predicate Explains(before: Table, after: Table, q: Request, response: seq<Byte>) {
    && OnlyKey(before, after, q.key)
    && match q
       case SetReq(key, value) =>
         response == if key in after && after[key] == value then Plain(0) else Plain(2)
       case GetReq(key) =>
         && after == before
         && if key in before then
              |response| >= 8 && response[..4] == [0, 1, 0, 0] && response[8..] == before[key] + [0]
              && Length(response) == |before[key]| + 1
            else response == Plain(1)
       case DelReq(key) =>
         key !in after && response == if key in before then Plain(0) else Plain(1)
  }

  /** A refused message changes nothing and is answered with an error. */
  ghost predicate Refused(before: Table, after: Table, response: seq<Byte>) {
    after == before && response == Plain(2)
  }

  ghost predicate Explained(before: Table, after: Table, seen: Seen, response: seq<Byte>) {
    match seen
    case Valid(q) => Explains(before, after, q, response)
    case Malformed => Refused(before, after, response)
  }

  lemma PlainBytes(status: Byte)
    requires status < 3
    ensures AnswerBytes(Answer(status as int, [])) == Plain(status)
  {
    var code: U16 := status as int;
    assert EncodeU16(PROTOCOL_VERSION) == [0, 1] && EncodeU16(code) == [0, status];
    assert EncodeU32(0) == [0, 0, 0, 0];
    assert AnswerBytes(Answer(code, [])) == [0, 1] + [0, status] + [0, 0, 0, 0] + [];
  }

  lemma BodyBytes(body: seq<Byte>)
    requires |body| < 0x1_0000_0000
    ensures var r := AnswerBytes(Answer(STATUS_SUCCESS, body));
            |r| >= 8 && r[..4] == [0, 1, 0, 0] && r[8..] == body && Length(r) == |body|
  {
    HeaderFields(STATUS_SUCCESS, |body|, body);
    assert EncodeU16(PROTOCOL_VERSION) == [0, 1] && EncodeU16(STATUS_SUCCESS) == [0, 0];
    var r := AnswerBytes(Answer(STATUS_SUCCESS, body));
    assert r[..4] == EncodeU16(PROTOCOL_VERSION) + EncodeU16(STATUS_SUCCESS);
  }

  lemma ReplyExplains(l: Limits, m: Table, q: Request)
    requires MapOk(l, m) && |Reply(l, m, q).body| < 0x1_0000_0000
    ensures Explains(m, Apply(l, m, q), q, AnswerBytes(Reply(l, m, q)))
  {
    PlainBytes(0);
    PlainBytes(1);
    PlainBytes(2);
    if q.GetReq? && q.key in m {
      BodyBytes(m[q.key] + [0]);
    }
  }

  lemma SeenExplained(l: Limits, m: Table, seen: Seen)
    requires MapOk(l, m) && |SeenAnswer(l, m, seen).body| < 0x1_0000_0000
    ensures Explained(m, SeenMap(l, m, seen), seen, AnswerBytes(SeenAnswer(l, m, seen)))
  {
    match seen
    case Valid(q) => ReplyExplains(l, m, q);
    case Malformed => PlainBytes(2);
  }

  /** A SET is malformed exactly when its payload has no NUL before its last byte to end the key. */
  lemma SetMalformedIff(length: nat, buffer: seq<Byte>)
    requires length <= |buffer|
    ensures Parse(OP_SET, length, buffer) == Malformed <==> forall i | 0 <= i < length - 1 :: buffer[i] != 0
  {
    var key := CStr(buffer);
    CStrPrefix(buffer);
    if |key| + 1 < length {
      assert buffer[|key|] == 0;
    } else {
      forall i | 0 <= i < length - 1
        ensures buffer[i] != 0
      {
        assert buffer[i] == key[i] && key[i] in key;
      }
    }
  }

  // ---- Serving a parsed request --------------------------------------------------------------

  /** `kv_store_get` into a full-size buffer, then `strlen` and the NUL: the body of a GET answer. */
  method GetBody(store: Store, key: seq<Byte>) returns (found: bool, body: seq<Byte>)
    requires store.Valid() && ValidLimits(store.l)
    ensures found <==> key in store.Map()
    ensures body == if found then store.Map()[key] + [0] else []
    ensures |body| <= store.l.valueSize
  {
    var valOut := new Byte[store.l.valueSize](i => 0);
    StoredMap(store.l, store.db[..]);
    var rc := store.Get(key, valOut, store.l.valueSize);
    if rc != 0 {
      return false, [];
    }
    ghost var value := store.Map()[key];
    assert valOut[..] == StrNCpy(value, store.l.valueSize);
    FullBufferReadsBack(store.l, value);
    var valLen := |CStr(valOut[..])| + 1;
    assert valOut[..valLen] == value + [0];
    return true, valOut[..valLen];
  }

  /** The TCP handler's opcode switch on its payload buffer: a header is sent, and a value after it. */
  method TcpSwitch(store: Store, opcode: U16, length: nat, buffer: seq<Byte>) returns (response: seq<Byte>)
    requires store.Valid() && ValidLimits(store.l) && Terminated(opcode, length, buffer)
    modifies store.db
    ensures store.Valid()
    ensures var seen := Parse(opcode, length, buffer);
            && store.Map() == SeenMap(store.l, old(store.Map()), seen)
            && |SeenAnswer(store.l, old(store.Map()), seen).body| < 0x1_0000_0000
            && response == AnswerBytes(SeenAnswer(store.l, old(store.Map()), seen))
            && Explained(old(store.Map()), store.Map(), seen, response)
  {
    ghost var before := store.Map();
    TableMapOk(store.l, store.db[..]);
    CStrPrefix(buffer);
    var key := CStr(buffer);
    if opcode == OP_SET {
      var status;
      if |key| + 1 >= length {
        status := STATUS_ERROR;
      } else {
        var val := CStr(buffer[|key| + 1..]);
        var rc := store.Set(key, val);
        status := if rc == 0 then STATUS_SUCCESS else STATUS_ERROR;
      }
      response := Header(status, 0) + [];
    } else if opcode == OP_GET {
      var found, body := GetBody(store, key);
      if found {
        response := Header(STATUS_SUCCESS, |body|) + body;
      } else {
        response := Header(STATUS_NOT_FOUND, 0) + [];
      }
    } else if opcode == OP_DEL {
      var rc := store.Del(key);
      response := Header(if rc == 0 then STATUS_SUCCESS else STATUS_NOT_FOUND, 0) + [];
    } else {
      response := Header(STATUS_ERROR, 0) + [];
    }
    SeenExplained(store.l, before, Parse(opcode, length, buffer));
  }

  // ---- The TCP handler -----------------------------------------------------------------------

  /** What a payload `recv` yields: nothing yet, or some bytes. */
  datatype Arrival = Later | Piece(data: seq<Byte>)

  function Arrived(a: Arrival): seq<Byte> {
    match a
    case Later => []
    case Piece(data) => data
  }

  function Joined(arrivals: seq<Arrival>): seq<Byte> {
    if arrivals == [] then []
    else Arrived(arrivals[0]) + Joined(arrivals[1..])
  }

  /** The zeroed payload buffer after `length` received bytes. */
  function TcpBuffer(l: Limits, payload: seq<Byte>): seq<Byte>
    requires |payload| <= MaxPayload(l)
  {
    payload + Zeros(MaxPayload(l) - |payload|)
  }

  /** The request the TCP handler acts on for a whole header and the bytes that arrive after it. */
  function TcpSeen(l: Limits, header: seq<Byte>, incoming: seq<Byte>): Seen
    requires |header| == 8
  {
    var length := Length(header);
    if Version(header) != PROTOCOL_VERSION || length > MaxPayload(l) then Malformed
    else if |incoming| < length then Malformed
    else Parse(Opcode(header), length, TcpBuffer(l, incoming[..length]))
  }

  /** The strings of a complete, accepted request end inside the payload buffer. */
  predicate TcpDefined(l: Limits, header: seq<Byte>, incoming: seq<Byte>)
    requires |header| == 8
  {
    var length := Length(header);
    Version(header) == PROTOCOL_VERSION && length <= MaxPayload(l) && length <= |incoming| ==>
      Terminated(Opcode(header), length, TcpBuffer(l, incoming[..length]))
  }

  lemma JoinedStep(arrivals: seq<Arrival>, i: nat)
    requires i < |arrivals|
    ensures Joined(arrivals[i..]) == Arrived(arrivals[i]) + Joined(arrivals[i + 1..])
  {
    assert arrivals[i..][1..] == arrivals[i + 1..];
  }

  lemma PieceStep(all: seq<Byte>, from: nat, data: seq<Byte>, rest: seq<Byte>, n: nat)
    requires from <= |all| && all[from..] == data + rest && n <= |data|
    ensures from + n <= |all| && all[..from + n] == all[..from] + data[..n]
    ensures n == |data| ==> all[from + n..] == rest
  {
    assert all == all[..from] + (data + rest);
  }

  /** The first `total` bytes of the buffer are received ones, the others still what they were. */
  predicate Partly(buffer: seq<Byte>, all: seq<Byte>, total: nat, before: seq<Byte>) {
    total <= |all| && total <= |before| && buffer == all[..total] + before[total..]
  }

  /** One `recv` into the part of the buffer that is still missing. */
  method AddPiece(payload: array<Byte>, total: nat, data: seq<Byte>, n: nat,
                  ghost all: seq<Byte>, ghost rest: seq<Byte>, ghost before: seq<Byte>)
    requires n <= |data| && total + n <= payload.Length == |before|
    requires total <= |all| && all[total..] == data + rest
    requires Partly(payload[..], all, total, before)
    modifies payload
    ensures Partly(payload[..], all, total + n, before)
    ensures n == |data| ==> all[total + n..] == rest
  {
    PieceStep(all, total, data, rest, n);
    forall k | 0 <= k < n {
      payload[total + k] := data[k];
    }
  }

  /** One `recv` call: it moves nothing, or as much of the piece as is still wanted. */
  method TakeArrival(payload: array<Byte>, total: nat, length: nat, arrival: Arrival,
                     ghost all: seq<Byte>, ghost rest: seq<Byte>, ghost before: seq<Byte>)
    returns (after: nat)
    requires total < length <= payload.Length == |before|
    requires total <= |all| && all[total..] == Arrived(arrival) + rest
    requires Partly(payload[..], all, total, before)
    modifies payload
    ensures total <= after <= length && after <= |all| && Partly(payload[..], all, after, before)
    ensures after < length ==> all[after..] == rest
  {
    if arrival == Later {
      return total;
    }
    var n := if |arrival.data| <= length - total then |arrival.data| else length - total;
    AddPiece(payload, total, arrival.data, n, all, rest, before);
    after := total + n;
  }

  /**
   * The payload loop: it retries while nothing is there, accepts any fragmentation, and fails only
   * when the stream ends before `length` bytes have come.
   */
  method RecvPayload(payload: array<Byte>, length: nat, arrivals: seq<Arrival>) returns (ok: bool)
    requires length <= payload.Length
    modifies payload
    ensures ok <==> length <= |Joined(arrivals)|
    ensures ok ==> payload[..] == Joined(arrivals)[..length] + old(payload[..])[length..]
  {
    var totalReceived, i := 0, 0;
    ghost var all, before := Joined(arrivals), payload[..];
    assert arrivals[0..] == arrivals;
    while totalReceived < length
      invariant 0 <= i <= |arrivals| && 0 <= totalReceived <= length && totalReceived <= |all|
      invariant totalReceived < length ==> all[totalReceived..] == Joined(arrivals[i..])
      invariant Partly(payload[..], all, totalReceived, before)
      decreases |arrivals| - i
    {
      if i == |arrivals| {
        return false;
      }
      JoinedStep(arrivals, i);
      totalReceived :=
        TakeArrival(payload, totalReceived, length, arrivals[i], all, Joined(arrivals[i + 1..]), before);
      i := i + 1;
    }
    return true;
  }

  /** `handle_client_request` of the TCP server. */
  method HandleTcp(store: Store, header: seq<Byte>, arrivals: seq<Arrival>) returns (response: seq<Byte>)
    requires store.Valid() && ValidLimits(store.l) && |header| == 8
    requires TcpDefined(store.l, header, Joined(arrivals))
    modifies store.db
    ensures store.Valid()
    ensures var seen := TcpSeen(store.l, header, Joined(arrivals));
            && store.Map() == SeenMap(store.l, old(store.Map()), seen)
            && |SeenAnswer(store.l, old(store.Map()), seen).body| < 0x1_0000_0000
            && response == AnswerBytes(SeenAnswer(store.l, old(store.Map()), seen))
            && Explained(old(store.Map()), store.Map(), seen, response)
  {
    PlainBytes(2);
    StoredMap(store.l, store.db[..]);
    var version, opcode, length := Version(header), Opcode(header), Length(header);
    if version != PROTOCOL_VERSION || length > MaxPayload(store.l) {
      return Header(STATUS_ERROR, 0) + [];
    }
    var payload := new Byte[MaxPayload(store.l)](i => 0);
    if length > 0 {
      var ok := RecvPayload(payload, length, arrivals);
      if !ok {
        return Header(STATUS_ERROR, 0) + [];
      }
    }
    var buffer := payload[..];
    assert buffer == TcpBuffer(store.l, Joined(arrivals)[..length]);
    response := TcpSwitch(store, opcode, length, buffer);
  }

  // ---- The UDP server's response buffer ------------------------------------------------------

  method PutBytes(buffer: array<Byte>, offset: nat, data: seq<Byte>)
    requires offset + |data| <= buffer.Length
    modifies buffer
    ensures forall k | 0 <= k < buffer.Length ::
              buffer[k] == if offset <= k < offset + |data| then data[k - offset] else old(buffer[k])
  {
    forall k | 0 <= k < |data| {
      buffer[offset + k] := data[k];
    }
  }

  /** The buffer starts with an answer's header, except for the status. */
  predicate HalfHeader(b: seq<Byte>, length: U32) {
    |b| >= 8 && b[..2] == EncodeU16(PROTOCOL_VERSION) && b[4..8] == EncodeU32(length)
  }

  lemma WholeHeader(b: seq<Byte>, status: U16, length: U32)
    requires HalfHeader(b, length) && b[2..4] == EncodeU16(status)
    ensures b[..8] == Header(status, length)
  {
    assert b[..8] == b[..2] + b[2..4] + b[4..8];
  }

  /** Writes the status into the header and sends the header alone. */
  method FinishHeader(resp: array<Byte>, status: U16) returns (count: nat)
    requires HalfHeader(resp[..], 0)
    modifies resp
    ensures count == 8 <= resp.Length && resp[..count] == AnswerBytes(Answer(status, []))
  {
    ghost var before := resp[..];
    PutBytes(resp, 2, EncodeU16(status));
    assert resp[..][..2] == before[..2] && resp[..][4..8] == before[4..8] && resp[..][2..4] == EncodeU16(status);
    WholeHeader(resp[..], status, 0);
    count := 8;
    assert resp[..8] == resp[..][..8] == Header(status, 0) == Header(status, 0) + [];
  }

  /** The GET answer: status, length, and the value with its NUL behind the header. */
  method FinishValue(resp: array<Byte>, body: seq<Byte>) returns (count: nat)
    requires HalfHeader(resp[..], 0) && 8 + |body| <= resp.Length && |body| < 0x1_0000_0000
    modifies resp
    ensures count <= resp.Length && resp[..count] == AnswerBytes(Answer(STATUS_SUCCESS, body))
  {
    ghost var before := resp[..];
    PutBytes(resp, 2, EncodeU16(STATUS_SUCCESS));
    PutBytes(resp, 4, EncodeU32(|body|));
    PutBytes(resp, 8, body);
    assert resp[..][..2] == before[..2] && resp[..][4..8] == EncodeU32(|body|);
    assert resp[..][2..4] == EncodeU16(STATUS_SUCCESS);
    WholeHeader(resp[..], STATUS_SUCCESS, |body|);
    count := 8 + |body|;
    assert resp[..count] == resp[..][..8] + resp[8..count] && resp[8..count] == body;
  }

  /** The UDP server's opcode switch: the answer is built in a buffer that held anything before. */
  method UdpSwitch(store: Store, opcode: U16, length: nat, payload: seq<Byte>, resp: array<Byte>) returns (count: nat)
    requires store.Valid() && ValidLimits(store.l) && Terminated(opcode, length, payload)
    requires resp.Length == 8 + MaxPayload(store.l)
    modifies store.db, resp
    ensures store.Valid() && count <= resp.Length
    ensures var seen := Parse(opcode, length, payload);
            && store.Map() == SeenMap(store.l, old(store.Map()), seen)
            && |SeenAnswer(store.l, old(store.Map()), seen).body| < 0x1_0000_0000
            && resp[..count] == AnswerBytes(SeenAnswer(store.l, old(store.Map()), seen))
            && Explained(old(store.Map()), store.Map(), seen, resp[..count])
  {
    ghost var before := store.Map();
    TableMapOk(store.l, store.db[..]);
    CStrPrefix(payload);
    PutBytes(resp, 0, EncodeU16(PROTOCOL_VERSION));
    PutBytes(resp, 4, EncodeU32(0));
    assert HalfHeader(resp[..], 0);
    var key := CStr(payload);
    if opcode == OP_SET {
      if |key| + 1 >= length {
        count := FinishHeader(resp, STATUS_ERROR);
      } else {
        var val := CStr(payload[|key| + 1..]);
        var rc := store.Set(key, val);
        count := FinishHeader(resp, if rc == 0 then STATUS_SUCCESS else STATUS_ERROR);
      }
    } else if opcode == OP_GET {
      var found, body := GetBody(store, key);
      if found {
        count := FinishValue(resp, body);
      } else {
        count := FinishHeader(resp, STATUS_NOT_FOUND);
      }
    } else if opcode == OP_DEL {
      var rc := store.Del(key);
      count := FinishHeader(resp, if rc == 0 then STATUS_SUCCESS else STATUS_NOT_FOUND);
    } else {
      count := FinishHeader(resp, STATUS_ERROR);
    }
    SeenExplained(store.l, before, Parse(opcode, length, payload));
  }

  // ---- The UDP server ------------------------------------------------------------------------

  /** The request the UDP server acts on when n bytes were received into the buffer. */
  function UdpSeen(l: Limits, buffer: seq<Byte>, n: nat): Seen
    requires |buffer| >= 8
  {
    var length := Length(buffer);
    if Version(buffer) != PROTOCOL_VERSION || length > MaxPayload(l) || n < 8 + length then Malformed
    else Parse(Opcode(buffer), length, buffer[8..])
  }

  predicate UdpDefined(l: Limits, buffer: seq<Byte>, n: nat)
    requires |buffer| >= 8
  {
    var length := Length(buffer);
    Version(buffer) == PROTOCOL_VERSION && length <= MaxPayload(l) && 8 + length <= n ==>
      Terminated(Opcode(buffer), length, buffer[8..])
  }

  /** The server loop's state: the store and the buffer that all datagrams share. */
  class UdpServer {
    const store: Store
    const buffer: array<Byte>

    constructor (store: Store, junk: seq<Byte>)
      requires store.Valid() && ValidLimits(store.l) && |junk| == 8 + MaxPayload(store.l)
      ensures this.store == store && fresh(buffer) && buffer[..] == junk && Ready()
    {
      this.store := store;
      buffer := new Byte[|junk|](i requires 0 <= i < |junk| => junk[i]);
    }

    ghost predicate Ready()
      reads this, buffer, store, store.db
    {
      store.Valid() && ValidLimits(store.l) && buffer.Length == 8 + MaxPayload(store.l)
    }

    /** One turn of the loop after a successful `recvfrom`; a runt datagram gets no answer. */
    method HandleDatagram(datagram: seq<Byte>) returns (sent: bool, response: seq<Byte>)
      requires Ready()
      requires |datagram| >= 8 ==>
                 UdpDefined(store.l, Overlay(buffer[..], datagram), Received(buffer[..], datagram))
      modifies buffer, store.db
      ensures Ready()
      ensures buffer[..] == Overlay(old(buffer[..]), datagram)
      ensures sent <==> |datagram| >= 8
      ensures !sent ==> store.Map() == old(store.Map())
      ensures sent ==>
                var seen := UdpSeen(store.l, Overlay(old(buffer[..]), datagram), Received(old(buffer[..]), datagram));
                && store.Map() == SeenMap(store.l, old(store.Map()), seen)
                && |SeenAnswer(store.l, old(store.Map()), seen).body| < 0x1_0000_0000
                && response == AnswerBytes(SeenAnswer(store.l, old(store.Map()), seen))
                && Explained(old(store.Map()), store.Map(), seen, response)
    {
      PlainBytes(2);
      StoredMap(store.l, store.db[..]);
      var n := if |datagram| <= buffer.Length then |datagram| else buffer.Length;
      ghost var before := buffer[..];
      forall k | 0 <= k < n {
        buffer[k] := datagram[k];
      }
      assert buffer[..] == Overlay(before, datagram);
      if n < 8 {
        return false, [];
      }
      sent := true;
      var all := buffer[..];
      var version, opcode, length := Version(all), Opcode(all), Length(all);
      if version != PROTOCOL_VERSION || length > MaxPayload(store.l) || n < 8 + length {
        return true, Header(STATUS_ERROR, 0) + [];
      }
      var payload := all[8..];
      var resp := new Byte[8 + MaxPayload(store.l)];
      var count := UdpSwitch(store, opcode, length, payload, resp);
      response := resp[..count];
    }
  }

  // ---- Agreement -----------------------------------------------------------------------------

  /** An opcode that neither server knows. */
  predicate BadOpcode(h: seq<Byte>)
    requires |h| >= 8
  {
    h[2] != 0 || h[3] < 1 || h[3] > 3
  }

  /** No NUL before the last of these bytes: a SET without a value. */
  predicate NoValue(payload: seq<Byte>) {
    forall i | 0 <= i < |payload| - 1 :: payload[i] != 0
  }

  lemma ParseMalformedIff(h: seq<Byte>, length: nat, buffer: seq<Byte>)
    requires |h| >= 8 && length <= |buffer|
    ensures Parse(Opcode(h), length, buffer) == Malformed
            <==> BadOpcode(h) || (h[3] == 1 && NoValue(buffer[..length]))
  {
    SetMalformedIff(length, buffer);
    var payload := buffer[..length];
    assert forall i | 0 <= i < length :: payload[i] == buffer[i];
    assert NoValue(payload) <==> forall i | 0 <= i < length - 1 :: buffer[i] != 0;
  }

  /** Exactly which messages the TCP handler refuses. */
  lemma TcpRefusesIff(l: Limits, header: seq<Byte>, incoming: seq<Byte>)
    requires |header| == 8
    ensures var length := Length(header);
            TcpSeen(l, header, incoming) == Malformed
            <==> || header[..2] != [0, 1] || length > MaxPayload(l) || |incoming| < length
                 || BadOpcode(header) || (header[3] == 1 && NoValue(incoming[..length]))
  {
    var length := Length(header);
    assert Version(header) == PROTOCOL_VERSION <==> header[..2] == [0, 1];
    if length <= MaxPayload(l) && length <= |incoming| {
      var buffer := TcpBuffer(l, incoming[..length]);
      assert buffer[..length] == incoming[..length];
      ParseMalformedIff(header, length, buffer);
    }
  }

  /** Exactly which datagrams the UDP server refuses; n bytes of its buffer are the datagram's. */
  lemma UdpRefusesIff(l: Limits, buffer: seq<Byte>, n: nat)
    requires |buffer| == 8 + MaxPayload(l)
    ensures var length := Length(buffer);
            UdpSeen(l, buffer, n) == Malformed
            <==> || buffer[..2] != [0, 1] || length > MaxPayload(l) || n < 8 + length
                 || BadOpcode(buffer) || (buffer[3] == 1 && NoValue(buffer[8..8 + length]))
  {
    var length := Length(buffer);
    assert Version(buffer) == PROTOCOL_VERSION <==> buffer[..2] == [0, 1];
    if length <= MaxPayload(l) {
      assert buffer[8..][..length] == buffer[8..8 + length];
      ParseMalformedIff(buffer, length, buffer[8..]);
    }
  }

  /** The TCP handler's zeroed buffer ends a key that comes without its NUL. */
  lemma TcpEndsKey(l: Limits, key: seq<Byte>)
    requires ValidLimits(l) && 0 !in key && |key| < MaxPayload(l)
    ensures TcpSeen(l, Header(OP_GET, |key|), key) == Valid(GetReq(key))
  {
    HeaderFields(OP_GET, |key|, []);
    assert Header(OP_GET, |key|) + [] == Header(OP_GET, |key|);
    assert key[..|key|] == key;
    CStrOf(key, Zeros(MaxPayload(l) - |key|));
  }

  lemma WholePayload(l: Limits, q: Request)
    requires WellFormed(l, q)
    ensures TcpBuffer(l, Payload(q)[..|Payload(q)|]) == Payload(q) + Zeros(MaxPayload(l) - |Payload(q)|)
  {
    assert Payload(q)[..|Payload(q)|] == Payload(q);
  }

  /** The TCP handler acts on exactly the request the client built, however its payload arrives. */
  lemma TcpSeesRequest(l: Limits, q: Request)
    requires ValidLimits(l) && WellFormed(l, q)
    ensures var header := Header(RequestCode(q), |Payload(q)|);
            TcpSeen(l, header, Payload(q)) == Valid(q) && TcpDefined(l, header, Payload(q))
  {
    var header := Header(RequestCode(q), |Payload(q)|);
    HeaderFields(RequestCode(q), |Payload(q)|, []);
    assert header + [] == header;
    WholePayload(l, q);
    ParsePayload(l, q, Zeros(MaxPayload(l) - |Payload(q)|));
  }

  /** The UDP server acts on exactly the request the client built, whatever its buffer held before. */
  lemma UdpSeesRequest(l: Limits, q: Request, stale: seq<Byte>)
    requires ValidLimits(l) && WellFormed(l, q) && |stale| == 8 + MaxPayload(l)
    ensures var buffer, n := Overlay(stale, RequestBytes(q)), Received(stale, RequestBytes(q));
            |buffer| >= 8 && UdpSeen(l, buffer, n) == Valid(q) && UdpDefined(l, buffer, n)
  {
    var datagram := RequestBytes(q);
    var buffer := Overlay(stale, datagram);
    var tail := stale[|datagram|..];
    assert buffer == Header(RequestCode(q), |Payload(q)|) + (Payload(q) + tail);
    HeaderFields(RequestCode(q), |Payload(q)|, Payload(q) + tail);
    assert buffer[8..] == Payload(q) + tail;
    ParsePayload(l, q, tail);
  }

  /**
   * The same client request leaves the same store and the same answer bytes on both servers: the
   * request's own.
   */
  lemma ServersAgree(l: Limits, m: Table, q: Request, stale: seq<Byte>)
    requires ValidLimits(l) && WellFormed(l, q) && |stale| == 8 + MaxPayload(l)
    ensures var tcp := TcpSeen(l, Header(RequestCode(q), |Payload(q)|), Payload(q));
            var udp := UdpSeen(l, Overlay(stale, RequestBytes(q)), Received(stale, RequestBytes(q)));
            && SeenMap(l, m, tcp) == SeenMap(l, m, udp) == Apply(l, m, q)
            && SeenAnswer(l, m, tcp) == SeenAnswer(l, m, udp) == Reply(l, m, q)
  {
    TcpSeesRequest(l, q);
    UdpSeesRequest(l, q, stale);
  }

  /**
   * One client request put to both servers: over any fragmentation of the payload on one side, and any
   * leftovers in the buffer on the other, the response bytes and the stores stay equal.
   */
  method AskBoth(tcp: Store, udp: UdpServer, q: Request, arrivals: seq<Arrival>)
    returns (viaTcp: seq<Byte>, viaUdp: seq<Byte>)
    requires tcp.Valid() && udp.Ready() && tcp.db != udp.store.db && tcp.l == udp.store.l
    requires tcp.Map() == udp.store.Map()
    requires WellFormed(tcp.l, q) && Joined(arrivals) == Payload(q)
    modifies tcp.db, udp.buffer, udp.store.db
    ensures tcp.Valid() && udp.Ready()
    ensures viaTcp == viaUdp
    ensures tcp.Map() == udp.store.Map() == Apply(tcp.l, old(tcp.Map()), q)
    ensures Explains(old(tcp.Map()), tcp.Map(), q, viaTcp)
  {
    ghost var stale := udp.buffer[..];
    var request := BuildRequest(tcp.l, q);
    TcpSeesRequest(tcp.l, q);
    UdpSeesRequest(tcp.l, q, stale);
    assert request[..8] == Header(RequestCode(q), |Payload(q)|);
    viaTcp := HandleTcp(tcp, request[..8], arrivals);
    var sent;
    sent, viaUdp := udp.HandleDatagram(request);
  }
}
