/**
 * The client's retry loop over a channel that may lose datagrams and delay or reorder them within one
 * call, and, if `dup` is set, duplicate them, talking to the UDP server.
 */
module KvClient {
  import opened Bytes
  import opened KvStore
  import opened KvServers

  const DEFAULT_TIMEOUT_MS := 200

  /** How the wait of one attempt ends: a timeout, the arrival of some answer, or a socket error. */
  datatype Ending = Silent | Heard(which: nat) | Broken

  /** During an attempt the server handles some of the requests on the way to it. */
  datatype Attempt = Attempt(handled: nat, ending: Ending)

  /** The store, the requests under way, and every answer the server has sent. */
  datatype Net = Net(store: Table, outstanding: nat, answers: seq<Answer>)

  datatype Report = Report(answered: bool, answer: Answer, sends: nat, waitedMs: nat, net: Net)

  /** The server handles one outstanding copy of the request; a duplicating channel may deliver it again. */
  function HandleOne(l: Limits, dup: bool, q: Request, net: Net): Net
    requires net.outstanding > 0
  {
    Net(Apply(l, net.store, q), if dup then net.outstanding else net.outstanding - 1,
        net.answers + [Reply(l, net.store, q)])
  }

  /** The server handles up to n outstanding copies of the request. */
  function Handle(l: Limits, dup: bool, q: Request, net: Net, n: nat): Net
    decreases n
  {
    if n == 0 || net.outstanding == 0 then net
    else Handle(l, dup, q, HandleOne(l, dup, q, net), n - 1)
  }

  datatype Outcome = TimedOut | GaveUp | Got(answer: Answer)

  /** What `recvfrom` yields to the client: only an answer that was sent can arrive. */
  function WaitOutcome(ending: Ending, answers: seq<Answer>): Outcome {
    match ending
    case Silent => TimedOut
    case Heard(k) => if k < |answers| then Got(answers[k]) else TimedOut
    case Broken => GaveUp
  }

  /** One more copy is sent, and the server handles some. */
  function AfterAttempt(l: Limits, dup: bool, q: Request, attempt: Attempt, net: Net): Net {
    Handle(l, dup, q, net.(outstanding := net.outstanding + 1), attempt.handled)
  }

  /** The loop from a given retry count on. */
  function Retry(l: Limits, dup: bool, q: Request, maxRetries: nat, script: nat -> Attempt,
                 retry: nat, timeoutMs: nat, waitedMs: nat, net: Net): Report
    requires retry <= maxRetries + 1
    decreases maxRetries + 1 - retry
  {
    if retry > maxRetries then Report(false, Answer(STATUS_ERROR, []), retry, waitedMs, net)
    else
      var after := AfterAttempt(l, dup, q, script(retry), net);
      match WaitOutcome(script(retry).ending, after.answers)
      case GaveUp => Report(false, Answer(STATUS_ERROR, []), retry + 1, waitedMs, after)
      case Got(answer) => Report(true, answer, retry + 1, waitedMs, after)
      case TimedOut => Retry(l, dup, q, maxRetries, script, retry + 1, 2 * timeoutMs, waitedMs + timeoutMs, after)
  }

  function Call(l: Limits, dup: bool, q: Request, maxRetries: nat, script: nat -> Attempt, m: Table): Report {
    Retry(l, dup, q, maxRetries, script, 0, DEFAULT_TIMEOUT_MS, 0, Net(m, 0, []))
  }

  // ---- Repeating a request -------------------------------------------------------------------

  /** A second application changes nothing more. */
  lemma ApplyTwice(l: Limits, m: Table, q: Request)
    ensures Apply(l, Apply(l, m, q), q) == Apply(l, m, q)
  {
  }

  /** It is answered like the first, except that a key is only found once by a delete. */
  lemma ReplyTwice(l: Limits, m: Table, q: Request)
    ensures Reply(l, Apply(l, m, q), q) == if q.DelReq? then Answer(STATUS_NOT_FOUND, []) else Reply(l, m, q)
  {
  }

  /** What the k-th copy of the request is answered. */
  function CopyAnswer(l: Limits, m: Table, q: Request, k: nat): Answer {
    if k == 0 then Reply(l, m, q) else Reply(l, Apply(l, m, q), q)
  }

  ghost predicate AnswersOk(l: Limits, q: Request, m: Table, answers: seq<Answer>) {
    forall k | 0 <= k < |answers| :: answers[k] == CopyAnswer(l, m, q, k)
  }

  /** However many copies the server handled, the store is that of none or of one. */
  ghost predicate NetOk(l: Limits, q: Request, m: Table, net: Net) {
    net.store == (if net.answers == [] then m else Apply(l, m, q)) && AnswersOk(l, q, m, net.answers)
  }

  lemma OneMoreAnswer(l: Limits, q: Request, m: Table, answers: seq<Answer>, a: Answer)
    requires AnswersOk(l, q, m, answers) && a == CopyAnswer(l, m, q, |answers|)
    ensures AnswersOk(l, q, m, answers + [a])
  {
  }

  lemma HandleOneKeeps(l: Limits, dup: bool, q: Request, m: Table, net: Net)
    requires NetOk(l, q, m, net) && net.outstanding > 0
    ensures NetOk(l, q, m, HandleOne(l, dup, q, net))
  {
    ApplyTwice(l, m, q);
    OneMoreAnswer(l, q, m, net.answers, Reply(l, net.store, q));
  }

  lemma {:induction false} HandleKeeps(l: Limits, dup: bool, q: Request, m: Table, net: Net, n: nat)
    requires NetOk(l, q, m, net)
    ensures NetOk(l, q, m, Handle(l, dup, q, net, n))
    decreases n
  {
    if n > 0 && net.outstanding > 0 {
      HandleOneKeeps(l, dup, q, m, net);
      HandleKeeps(l, dup, q, m, HandleOne(l, dup, q, net), n - 1);
    }
  }

  lemma {:induction false} RetryKeeps(l: Limits, dup: bool, q: Request, maxRetries: nat, script: nat -> Attempt,
                                      retry: nat, timeoutMs: nat, waitedMs: nat, net: Net, m: Table)
    requires retry <= maxRetries + 1 && NetOk(l, q, m, net)
    ensures var r := Retry(l, dup, q, maxRetries, script, retry, timeoutMs, waitedMs, net);
            && NetOk(l, q, m, r.net)
            && retry <= r.sends <= maxRetries + 1
            && (r.answered ==> r.answer in r.net.answers)
    decreases maxRetries + 1 - retry
  {
    if retry <= maxRetries {
      HandleKeeps(l, dup, q, m, net.(outstanding := net.outstanding + 1), script(retry).handled);
      var after := AfterAttempt(l, dup, q, script(retry), net);
      RetryKeeps(l, dup, q, maxRetries, script, retry + 1, 2 * timeoutMs, waitedMs + timeoutMs, after, m);
    }
  }

  /**
   * At-most-once effect of a retried call: at most MAX_RETRIES + 1 datagrams; an answer means the
   * operation was applied once; a timeout means it was applied once or not at all; and every answer
   * is the operation's own, except that a delete may be told its key is gone.
   */
  lemma RetriedCall(l: Limits, dup: bool, q: Request, maxRetries: nat, script: nat -> Attempt, m: Table)
    ensures var r := Call(l, dup, q, maxRetries, script, m);
            && r.sends <= maxRetries + 1
            && (r.answered ==> r.net.store == Apply(l, m, q))
            && (!r.answered ==> r.net.store == m || r.net.store == Apply(l, m, q))
            && (r.answered ==> r.answer == Reply(l, m, q) || (q.DelReq? && r.answer == Answer(STATUS_NOT_FOUND, [])))
            && (r.answered && q.DelReq? && r.answer.status == STATUS_SUCCESS ==> q.key in m)
  {
    RetryKeeps(l, dup, q, maxRetries, script, 0, DEFAULT_TIMEOUT_MS, 0, Net(m, 0, []), m);
    ReplyTwice(l, m, q);
  }

  /**
   * What an answer to a retried call says about the store that the call leaves: a SET is confirmed exactly
   * when the key has the value now; a GET reports the key's value or its absence; after a DEL the key is
   * gone, and OK means that it was there.
   */
  lemma RetriedAnswerMeans(l: Limits, dup: bool, q: Request, maxRetries: nat, script: nat -> Attempt, m: Table)
    requires MapOk(l, m)
    ensures var r := Call(l, dup, q, maxRetries, script, m);
            r.answered ==>
              && OnlyKey(m, r.net.store, q.key)
              && match q
                 case SetReq(key, value) =>
                   r.answer == Answer(if key in r.net.store && r.net.store[key] == value then 0 else 2, [])
                 case GetReq(key) =>
                   && r.net.store == m
                   && r.answer == if key in m then Answer(0, m[key] + [0]) else Answer(1, [])
                 case DelReq(key) =>
                   && key !in r.net.store && r.answer.body == []
                   && (r.answer.status == 0 ==> key in m) && (key !in m ==> r.answer.status == 1)
  {
    RetriedCall(l, dup, q, maxRetries, script, m);
  }

  /** A socket error ends the call: nothing more is sent.  So does the arrival of an answer. */
  lemma {:induction false} WaitEnds(l: Limits, dup: bool, q: Request, maxRetries: nat, script: nat -> Attempt,
                                    retry: nat, timeoutMs: nat, waitedMs: nat, net: Net, i: nat)
    requires retry <= i <= maxRetries && forall j | retry <= j < i :: script(j).ending == Silent
    ensures var r := Retry(l, dup, q, maxRetries, script, retry, timeoutMs, waitedMs, net);
            && (script(i).ending == Broken ==> !r.answered && r.sends == i + 1)
            && (script(i).ending == Heard(0) && script(i).handled > 0 ==> r.answered && r.sends == i + 1)
    decreases i - retry
  {
    var after := AfterAttempt(l, dup, q, script(retry), net);
    if retry < i {
      WaitEnds(l, dup, q, maxRetries, script, retry + 1, 2 * timeoutMs, waitedMs + timeoutMs, after, i);
    } else if script(i).handled > 0 {
      HandledAnswers(l, dup, q, net.(outstanding := net.outstanding + 1), script(i).handled);
    }
  }

  lemma {:induction false} HandledAnswers(l: Limits, dup: bool, q: Request, net: Net, n: nat)
    requires n > 0 && (net.outstanding > 0 || net.answers != [])
    ensures Handle(l, dup, q, net, n).answers != []
    decreases n
  {
    if net.outstanding > 0 {
      var next := HandleOne(l, dup, q, net);
      if n > 1 {
        HandledAnswers(l, dup, q, next, n - 1);
      } else {
        assert Handle(l, dup, q, next, 0) == next;
      }
    }
  }

  /** A call whose i-th wait is the first to end in an error has sent i + 1 datagrams and reports a failure. */
  lemma BrokenCall(l: Limits, dup: bool, q: Request, maxRetries: nat, script: nat -> Attempt, m: Table, i: nat)
    requires i <= maxRetries && script(i).ending == Broken
    requires forall j | 0 <= j < i :: script(j).ending == Silent
    ensures var r := Call(l, dup, q, maxRetries, script, m); !r.answered && r.sends == i + 1
  {
    WaitEnds(l, dup, q, maxRetries, script, 0, DEFAULT_TIMEOUT_MS, 0, Net(m, 0, []), i);
  }

  /** The server handles every request at once; only its first answer gets lost. */
  function FirstAnswerLost(): nat -> Attempt {
    (i: nat) => Attempt(1, if i == 0 then Silent else Heard(1))
  }

  lemma HandleSingle(l: Limits, dup: bool, q: Request, net: Net)
    requires net.outstanding > 0
    ensures Handle(l, dup, q, net, 1) == HandleOne(l, dup, q, net)
  {
    assert Handle(l, dup, q, HandleOne(l, dup, q, net), 0) == HandleOne(l, dup, q, net);
  }

  /**
   * The exception is real: when the first answer to a delete is lost, the retry reports NOT FOUND
   * although the key was there and this call removed it.
   */
  lemma LostDeleteAnswer(l: Limits, dup: bool, key: seq<Byte>, maxRetries: nat, m: Table)
    requires key in m && maxRetries > 0
    ensures var r := Call(l, dup, DelReq(key), maxRetries, FirstAnswerLost(), m);
            r.answered && r.answer.status == STATUS_NOT_FOUND && key !in r.net.store
  {
    var q := DelReq(key);
    var first := HandleOne(l, dup, q, Net(m, 1, []));
    HandleSingle(l, dup, q, Net(m, 1, []));
    var resent := first.(outstanding := first.outstanding + 1);
    HandleSingle(l, dup, q, resent);
    var second := HandleOne(l, dup, q, resent);
    assert Retry(l, dup, q, maxRetries, FirstAnswerLost(), 1, 2 * DEFAULT_TIMEOUT_MS, DEFAULT_TIMEOUT_MS, first)
        == Report(true, second.answers[1], 2, DEFAULT_TIMEOUT_MS, second);
  }

  /** The server handles the first datagram twice, and the second answer overtakes the first. */
  function SecondAnswerFirst(): nat -> Attempt {
    (i: nat) => Attempt(2, Heard(1))
  }

  /** A duplicated delete may report NOT FOUND without any retry. */
  lemma DuplicatedDelete(l: Limits, key: seq<Byte>, maxRetries: nat, m: Table)
    requires key in m
    ensures var r := Call(l, true, DelReq(key), maxRetries, SecondAnswerFirst(), m);
            r.answered && r.sends == 1 && r.answer.status == STATUS_NOT_FOUND && key !in r.net.store
  {
    var q := DelReq(key);
    var first := HandleOne(l, true, q, Net(m, 1, []));
    HandleSingle(l, true, q, first);
    var second := HandleOne(l, true, q, first);
    assert Handle(l, true, q, Net(m, 1, []), 2) == second;
  }

  /** The answer reported, if any, is that of the operation on the store as it was. */
  predicate OwnAnswer(l: Limits, dup: bool, q: Request, maxRetries: nat, script: nat -> Attempt, m: Table) {
    var r := Call(l, dup, q, maxRetries, script, m);
    r.answered ==> r.answer == Reply(l, m, q)
  }

  /** Without retries and duplicates a client hears only the answer to its one datagram. */
  lemma SingleTry(l: Limits, q: Request, script: nat -> Attempt, m: Table)
    ensures OwnAnswer(l, false, q, 0, script, m)
  {
    var sent := Net(m, 1, []);
    assert AfterAttempt(l, false, q, script(0), Net(m, 0, [])) == Handle(l, false, q, sent, script(0).handled);
    if script(0).handled > 0 {
      var served := HandleOne(l, false, q, sent);
      assert Handle(l, false, q, served, script(0).handled - 1) == served;
      assert served.answers == [Reply(l, m, q)];
    }
  }

  /**
   * Exactly when a retried call is sure to report the operation's own answer, whatever the channel does:
   * unless it deletes a key that is there and may reach the server twice.
   */
  lemma OwnAnswerIff(l: Limits, dup: bool, q: Request, maxRetries: nat, m: Table)
    ensures (forall script: nat -> Attempt :: OwnAnswer(l, dup, q, maxRetries, script, m))
            <==> !(q.DelReq? && q.key in m && (maxRetries > 0 || dup))
  {
    if q.DelReq? && q.key in m && maxRetries > 0 {
      LostDeleteAnswer(l, dup, q.key, maxRetries, m);
      assert !OwnAnswer(l, dup, q, maxRetries, FirstAnswerLost(), m);
    } else if q.DelReq? && q.key in m && dup {
      DuplicatedDelete(l, q.key, maxRetries, m);
      assert !OwnAnswer(l, dup, q, maxRetries, SecondAnswerFirst(), m);
    } else {
      forall script: nat -> Attempt
        ensures OwnAnswer(l, dup, q, maxRetries, script, m)
      {
        if maxRetries == 0 && !dup {
          SingleTry(l, q, script, m);
        } else {
          RetriedCall(l, dup, q, maxRetries, script, m);
        }
      }
    }
  }

  /** The call is silent to the end. */
  predicate NeverHeard(script: nat -> Attempt, maxRetries: nat) {
    forall i | 0 <= i <= maxRetries :: script(i).ending == Silent
  }

  lemma {:induction false} BackoffSum(l: Limits, dup: bool, q: Request, maxRetries: nat, script: nat -> Attempt,
                                      retry: nat, timeoutMs: nat, waitedMs: nat, net: Net)
    requires retry <= maxRetries + 1 && NeverHeard(script, maxRetries)
    ensures var r := Retry(l, dup, q, maxRetries, script, retry, timeoutMs, waitedMs, net);
            && !r.answered && r.sends == maxRetries + 1
            && r.waitedMs + timeoutMs == waitedMs + timeoutMs * Pow2(maxRetries + 1 - retry)
    decreases maxRetries + 1 - retry
  {
    if retry <= maxRetries {
      var after := AfterAttempt(l, dup, q, script(retry), net);
      BackoffSum(l, dup, q, maxRetries, script, retry + 1, 2 * timeoutMs, waitedMs + timeoutMs, after);
      Double(timeoutMs, Pow2(maxRetries - retry));
    }
  }

  lemma Double(a: nat, b: nat)
    ensures 2 * a * b == a * (2 * b)
  {
  }

  /** A call nobody answers sends every retry and waits out the doubling timeouts. */
  lemma SilentCall(l: Limits, dup: bool, q: Request, maxRetries: nat, script: nat -> Attempt, m: Table)
    requires NeverHeard(script, maxRetries)
    ensures var r := Call(l, dup, q, maxRetries, script, m);
            && !r.answered && r.sends == maxRetries + 1
            && r.waitedMs == DEFAULT_TIMEOUT_MS * Pow2(maxRetries + 1) - DEFAULT_TIMEOUT_MS
  {
    BackoffSum(l, dup, q, maxRetries, script, 0, DEFAULT_TIMEOUT_MS, 0, Net(m, 0, []));
  }

  // ---- The loop against the real server ------------------------------------------------------

  /** The answers on the wire are the abstract ones. */
  ghost predicate OnWire(responses: seq<seq<Byte>>, answers: seq<Answer>) {
    && |responses| == |answers|
    && forall k | 0 <= k < |answers| :: |answers[k].body| < 0x1_0000_0000 && responses[k] == AnswerBytes(answers[k])
  }

  lemma OnWireAppend(responses: seq<seq<Byte>>, answers: seq<Answer>, response: seq<Byte>, answer: Answer)
    requires OnWire(responses, answers)
    requires |answer.body| < 0x1_0000_0000 && response == AnswerBytes(answer)
    ensures OnWire(responses + [response], answers + [answer])
  {
  }

  /** The bytes of an answer give back its status and its body. */
  lemma AnswerFields(a: Answer)
    requires |a.body| < 0x1_0000_0000
    ensures var r := AnswerBytes(a);
            |r| == 8 + |a.body| && Opcode(r) == a.status && Length(r) == |a.body| && r[8..] == a.body
  {
    HeaderFields(a.status, |a.body|, a.body);
  }

  /** The server handles one copy of the request's datagram. */
  method ServeOne(server: UdpServer, q: Request, datagram: seq<Byte>,
                  responses: seq<seq<Byte>>, ghost answers: seq<Answer>)
    returns (all: seq<seq<Byte>>, ghost allAnswers: seq<Answer>)
    requires server.Ready() && WellFormed(server.store.l, q) && datagram == RequestBytes(q)
    requires OnWire(responses, answers)
    modifies server.buffer, server.store.db
    ensures server.Ready() && OnWire(all, allAnswers)
    ensures server.store.Map() == Apply(server.store.l, old(server.store.Map()), q)
    ensures allAnswers == answers + [Reply(server.store.l, old(server.store.Map()), q)]
  {
    UdpSeesRequest(server.store.l, q, server.buffer[..]);
    ghost var answer := Reply(server.store.l, server.store.Map(), q);
    var sent, response := server.HandleDatagram(datagram);
    OnWireAppend(responses, answers, response, answer);
    all, allAnswers := responses + [response], answers + [answer];
  }

  /** The server handles up to n copies of the request's datagram. */
  method ServeCopies(server: UdpServer, dup: bool, q: Request, datagram: seq<Byte>, outstanding: nat, n: nat,
                     responses: seq<seq<Byte>>, ghost answers: seq<Answer>)
    returns (left: nat, all: seq<seq<Byte>>, ghost allAnswers: seq<Answer>)
    requires server.Ready() && WellFormed(server.store.l, q) && datagram == RequestBytes(q)
    requires OnWire(responses, answers)
    modifies server.buffer, server.store.db
    ensures server.Ready() && OnWire(all, allAnswers)
    ensures Net(server.store.Map(), left, allAnswers)
            == Handle(server.store.l, dup, q, Net(old(server.store.Map()), outstanding, answers), n)
  {
    var i := 0;
    left, all, allAnswers := outstanding, responses, answers;
    ghost var net := Net(server.store.Map(), outstanding, answers);
    ghost var goal := Handle(server.store.l, dup, q, net, n);
    while i < n && left > 0
      invariant 0 <= i <= n && server.Ready() && OnWire(all, allAnswers)
      invariant net == Net(server.store.Map(), left, allAnswers)
      invariant Handle(server.store.l, dup, q, net, n - i) == goal
    {
      all, allAnswers := ServeOne(server, q, datagram, all, allAnswers);
      net := HandleOne(server.store.l, dup, q, net);
      left := if dup then left else left - 1;
      i := i + 1;
    }
  }

  /** The client's reading of an answer: the status from the header, and the body if it is all there. */
  method ReadAnswer(response: seq<Byte>, ghost sent: Answer) returns (answer: Answer)
    requires |sent.body| < 0x1_0000_0000 && response == AnswerBytes(sent)
    ensures answer == sent
  {
    AnswerFields(sent);
    var length: int := Length(response);
    var body := if length > 0 && |response| >= 8 + length then response[8..8 + length] else [];
    answer := Answer(Opcode(response), body);
  }

  /** One pass of the retry loop: send a copy, let the server work, and wait. */
  method TryOnce(server: UdpServer, dup: bool, q: Request, datagram: seq<Byte>, attempt: Attempt, outstanding: nat,
                 responses: seq<seq<Byte>>, ghost answers: seq<Answer>)
    returns (outcome: Outcome, left: nat, all: seq<seq<Byte>>, ghost allAnswers: seq<Answer>)
    requires server.Ready() && WellFormed(server.store.l, q) && datagram == RequestBytes(q)
    requires OnWire(responses, answers)
    modifies server.buffer, server.store.db
    ensures server.Ready() && OnWire(all, allAnswers)
    ensures Net(server.store.Map(), left, allAnswers)
            == AfterAttempt(server.store.l, dup, q, attempt, Net(old(server.store.Map()), outstanding, answers))
    ensures outcome == WaitOutcome(attempt.ending, allAnswers)
  {
    left, all, allAnswers :=
      ServeCopies(server, dup, q, datagram, outstanding + 1, attempt.handled, responses, answers);
    outcome := if attempt.ending.Broken? then GaveUp else TimedOut;
    if attempt.ending.Heard? && attempt.ending.which < |all| {
      var answer := ReadAnswer(all[attempt.ending.which], allAnswers[attempt.ending.which]);
      outcome := Got(answer);
    }
  }

  /** `send_udp`: what it reports is what `Retry` says, and the server is left in that state. */
  method SendUdp(server: UdpServer, dup: bool, q: Request, maxRetries: nat, script: nat -> Attempt)
    returns (success: bool, answer: Answer, sends: nat)
    requires server.Ready() && WellFormed(server.store.l, q)
    modifies server.buffer, server.store.db
    ensures server.Ready()
    ensures var r := Call(server.store.l, dup, q, maxRetries, script, old(server.store.Map()));
            success == r.answered && answer == r.answer && sends == r.sends && server.store.Map() == r.net.store
  {
    var datagram := BuildRequest(server.store.l, q);
    var timeoutMs: nat, outstanding: nat, responses := DEFAULT_TIMEOUT_MS, 0, [];
    ghost var waitedMs: nat := 0;
    success, answer, sends := false, Answer(STATUS_ERROR, []), 0;
    ghost var l, net, answers := server.store.l, Net(server.store.Map(), 0, []), [];
    ghost var goal := Call(l, dup, q, maxRetries, script, net.store);
    while sends <= maxRetries
      invariant !success && answer == Answer(STATUS_ERROR, [])
      invariant 0 <= sends <= maxRetries + 1 && server.Ready() && OnWire(responses, answers)
      invariant net == Net(server.store.Map(), outstanding, answers)
      invariant Retry(l, dup, q, maxRetries, script, sends, timeoutMs, waitedMs, net) == goal
    {
      var outcome;
      ghost var before := net;
      outcome, outstanding, responses, answers :=
        TryOnce(server, dup, q, datagram, script(sends), outstanding, responses, answers);
      net := AfterAttempt(l, dup, q, script(sends), before);
      sends := sends + 1;
      match outcome {
        case Got(a) =>
          success, answer := true, a;
          break;
        case GaveUp =>
          break;
        case TimedOut =>
          waitedMs := waitedMs + timeoutMs;
          timeoutMs := timeoutMs * 2;
      }
    }
  }
}
