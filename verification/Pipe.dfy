/**
 * A connection byte by byte: the loops of sender and receiver interleave in any way, each call moving some
 * of the bytes that are there.
 */
module Pipes {
  import opened Bytes
  import opened Wire

  /** What the sender still has to send, what is under way, and what the receiver has. */
  datatype Pipe = Pipe(unsent: seq<Byte>, underWay: seq<Byte>, got: seq<Byte>)

  datatype Move = Sent(n: nat) | Taken(n: nat)

  predicate Enabled(p: Pipe, move: Move) {
    match move
    case Sent(n) => 0 < n <= |p.unsent|
    case Taken(n) => 0 < n <= |p.underWay|
  }

  function Step(p: Pipe, move: Move): Pipe
    requires Enabled(p, move)
  {
    match move
    case Sent(n) => Pipe(p.unsent[n..], p.underWay + p.unsent[..n], p.got)
    case Taken(n) => Pipe(p.unsent, p.underWay[n..], p.got + p.underWay[..n])
  }

  predicate Interleaving(p: Pipe, moves: seq<Move>)
    decreases |moves|
  {
    moves == [] || (Enabled(p, moves[0]) && Interleaving(Step(p, moves[0]), moves[1..]))
  }

  function After(p: Pipe, moves: seq<Move>): Pipe
    requires Interleaving(p, moves)
    decreases |moves|
  {
    if moves == [] then p else After(Step(p, moves[0]), moves[1..])
  }

  /** Nothing is lost, repeated or reordered. */
  lemma {:induction false} KeepsBytes(p: Pipe, moves: seq<Move>)
    requires Interleaving(p, moves)
    ensures var t := After(p, moves); t.got + t.underWay + t.unsent == p.got + p.underWay + p.unsent
    decreases |moves|
  {
    if moves != [] {
      var t := Step(p, moves[0]);
      match moves[0] {
        case Sent(n) =>
          assert p.unsent == p.unsent[..n] + p.unsent[n..];
        case Taken(n) =>
          assert p.underWay == p.underWay[..n] + p.underWay[n..];
      }
      assert t.got + t.underWay + t.unsent == p.got + p.underWay + p.unsent;
      KeepsBytes(t, moves[1..]);
    }
  }

  /** What has arrived is a prefix of what the sender set out with, and in the end all of it. */
  lemma ArrivesInOrder(whole: seq<Byte>, moves: seq<Move>)
    requires Interleaving(Pipe(whole, [], []), moves)
    ensures var t := After(Pipe(whole, [], []), moves);
            t.got <= whole && (t.unsent == t.underWay == [] ==> t.got == whole)
  {
    KeepsBytes(Pipe(whole, [], []), moves);
    var t := After(Pipe(whole, [], []), moves);
    assert [] + [] + whole == whole;
    assert t.got + t.underWay + t.unsent == t.got + (t.underWay + t.unsent);
  }

  /** The messages that a sequence of receiving calls completes on these bytes. */
  function Decoded(calls: seq<Receiver>, s: seq<Byte>): seq<Message> {
    if calls == [] then []
    else
      match Read(calls[0], s)
      case Failed => []
      case Got(m, rest) => [m] + Decoded(calls[1..], rest)
  }

  /** How many messages end within the first n bytes of a conversation. */
  function Complete(ms: seq<Message>, n: nat): (k: nat)
    ensures k <= |ms|
  {
    if ms == [] || n < |Encode(ms[0])| then 0 else 1 + Complete(ms[1..], n - |Encode(ms[0])|)
  }

  /** A message that is not all there is not taken for one. */
  lemma PartFails(m: Message, part: seq<Byte>)
    requires Sendable(m)
    ensures part < Encode(m) ==> Read(ReceiverOf(m), part) == Failed
  {
    if part < Encode(m) {
      match m
      case Reply(r) => TruncatedResultFails(r, part);
      case Work(t) =>
        if |part| >= 4 {
          assert part[..4] == EncodeTask(t)[..4] == EncodeU32(OPCODE_WORK);
          U32RoundTrip(OPCODE_WORK);
        }
      case _ =>
    }
  }

  lemma CutFirst(first: seq<Byte>, rest: seq<Byte>, part: seq<Byte>)
    requires part <= first + rest
    ensures |part| < |first| ==> part < first
    ensures |part| >= |first| ==> part == first + part[|first|..] && part[|first|..] <= rest
  {
  }

  lemma DecodedFirst(ms: seq<Message>, rest: seq<Byte>)
    requires ms != [] && Sendable(ms[0])
    ensures Decoded(Receivers(ms), Encode(ms[0]) + rest) == [ms[0]] + Decoded(Receivers(ms[1..]), rest)
    ensures Complete(ms, |Encode(ms[0]) + rest|) == 1 + Complete(ms[1..], |rest|)
  {
    assert Receivers(ms)[1..] == Receivers(ms[1..]);
    ReadEncoded(ms[0], rest);
  }

  lemma DecodedNothing(ms: seq<Message>, part: seq<Byte>)
    requires ms != [] && Sendable(ms[0]) && part < Encode(ms[0])
    ensures Decoded(Receivers(ms), part) == [] && Complete(ms, |part|) == 0
  {
    PartFails(ms[0], part);
  }

  /** From any prefix of a conversation the receiver gets exactly the messages that are complete in it. */
  lemma {:induction false} DecodesComplete(ms: seq<Message>, part: seq<Byte>)
    requires AllSendable(ms) && part <= EncodeAll(ms)
    ensures Decoded(Receivers(ms), part) == ms[..Complete(ms, |part|)]
  {
    if ms != [] {
      var first := Encode(ms[0]);
      CutFirst(first, EncodeAll(ms[1..]), part);
      if |part| < |first| {
        DecodedNothing(ms, part);
      } else {
        var rest := part[|first|..];
        DecodedFirst(ms, rest);
        DecodesComplete(ms[1..], rest);
        PrefixTail(ms, Complete(ms[1..], |rest|));
      }
    }
  }

  lemma PrefixTail(ms: seq<Message>, k: nat)
    requires ms != [] && k <= |ms[1..]|
    ensures [ms[0]] + ms[1..][..k] == ms[..1 + k]
  {
  }

  lemma {:induction false} AllComplete(ms: seq<Message>)
    ensures Complete(ms, |EncodeAll(ms)|) == |ms|
  {
    if ms != [] {
      AllComplete(ms[1..]);
    }
  }

  /**
   * Over every interleaving of partial sends and receives the receiver has, at any moment, exactly the
   * messages whose last byte has arrived, and in the end all of them.
   */
  lemma DeliversMessages(ms: seq<Message>, moves: seq<Move>)
    requires AllSendable(ms)
    ensures Interleaving(Pipe(EncodeAll(ms), [], []), moves) ==>
              var t := After(Pipe(EncodeAll(ms), [], []), moves);
              && Decoded(Receivers(ms), t.got) == ms[..Complete(ms, |t.got|)]
              && (t.unsent == t.underWay == [] ==> t.got == EncodeAll(ms) && Decoded(Receivers(ms), t.got) == ms)
  {
    if Interleaving(Pipe(EncodeAll(ms), [], []), moves) {
      ArrivesInOrder(EncodeAll(ms), moves);
      DecodesComplete(ms, After(Pipe(EncodeAll(ms), [], []), moves).got);
      AllComplete(ms);
    }
  }
}
