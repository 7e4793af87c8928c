/**
 * The NoTiFi client's handshake with the server: expectACK sends a Register
 * or Deregister message and waits for the server's ACK, at most three
 * seconds per attempt and for at most two attempts.
 *
 * The socket and the clock are replaced by a script of events: each call of
 * getMessage(receivePacket()) takes the next event, which is a datagram
 * with what decoding it gave, a timeout (with the milliseconds elapsed
 * since the attempt began, as the clock reads after it) or a read failure.
 * `printed` collects what goes to standard output.
 */
module NoTiFiClient {
  import opened JavaLang
  import opened NoTiFiRecord
  import opened NoTiFiMessage
  import NoTiFiServer

  /** Milliseconds an attempt waits for its ACK. */
  const TIMEOUT: int := 3000
  const MAX_RESPONSE_ATTEMPTS: nat := 2

  const REGISTER_PROBLEM := "Unable to parse message"
  const DEREGISTER_PROBLEM := "Unable to parse message: "
  const UNEXPECTED_MESSAGE_ID := "Unexpected MSG ID"

  /** What one call of getMessage(receivePacket()) gives. */
  datatype Event =
    | Arrived(decoded: Outcome<Message>)
    | TimedOut(elapsed: nat)
    | ReadFailed

  // ---------------------------------------------------------------------
  // One attempt

  /**
   * How a wait ends: the ACK came, the time ran out, the client exits (a
   * read failure or an undecodable datagram), an IllegalArgumentException
   * from decoding escapes, or the script ran out first.
   */
  datatype Wait = GotAck | Expired | Exit | Throw | OutOfEvents

  datatype Waited = Waited(outcome: Wait, printed: seq<string>, rest: seq<Event>)

  /** `rest` is what is left of `events` after reading an ACK for `msgId` as the last event. */
  ghost predicate AckedBy(msgId: MsgId, events: seq<Event>, rest: seq<Event>) {
    |rest| < |events| && rest == events[|events| - |rest|..]
    && var e := events[|events| - |rest| - 1];
    e.Arrived? && e.decoded == Success(Ack(msgId))
  }

  /** What a message other than the awaited ACK prints. */
  function Report(m: Message): (lines: seq<string>)
    ensures m.Ack? ==> lines == [UNEXPECTED_MESSAGE_ID]
    ensures m.Error? ==> lines == [m.errorMessage]
    ensures !m.Ack? && !m.Error? ==> lines == []
  {
    if m.Ack? then [UNEXPECTED_MESSAGE_ID]
    else if m.Error? then [m.errorMessage]
    else []
  }

  /** The inner loop of expectACK: wait for the ACK with `timeLeft` milliseconds to go. */
  function Await(msgId: MsgId, timeLeft: int, events: seq<Event>, printed: seq<string>): Waited
    decreases |events|
  {
    if timeLeft <= 0 then Waited(Expired, printed, events)
    else if events == [] then Waited(OutOfEvents, printed, [])
    else
      var rest := events[1..];
      match events[0]
      case ReadFailed => Waited(Exit, printed, rest)
      case TimedOut(elapsed) => Await(msgId, TIMEOUT - elapsed, rest, printed)
      case Arrived(decoded) =>
        match decoded
        case Failure(Illegal(_)) => Waited(Throw, printed, rest)
        case Failure(IOError(_)) => Waited(Exit, printed, rest)
        case Success(m) =>
          if m.Ack? && m.msgId == msgId then Waited(GotAck, printed, rest)
          else Await(msgId, timeLeft, rest, printed + Report(m))
  }

  /** A wait reads a prefix of the events and only adds lines to what was printed. */
  lemma {:induction false} AwaitReadsPrefix(msgId: MsgId, timeLeft: int, events: seq<Event>, printed: seq<string>)
    ensures var w := Await(msgId, timeLeft, events, printed);
      |w.rest| <= |events| && w.rest == events[|events| - |w.rest|..]
      && |printed| <= |w.printed| && w.printed[..|printed|] == printed
      && (w.outcome == OutOfEvents ==> w.rest == [])
    decreases |events|
  {
    if timeLeft > 0 && events != [] {
      var rest := events[1..];
      match events[0]
      case ReadFailed =>
      case TimedOut(elapsed) =>
        AwaitReadsPrefix(msgId, TIMEOUT - elapsed, rest, printed);
      case Arrived(decoded) =>
        if decoded.Success? && !(decoded.value.Ack? && decoded.value.msgId == msgId) {
          var more := printed + Report(decoded.value);
          AwaitReadsPrefix(msgId, timeLeft, rest, more);
          var w := Await(msgId, timeLeft, rest, more);
          assert w.printed[..|printed|] == more[..|printed|];
        }
    }
  }

  /** A wait ends with GotAck only just after reading an ACK that carries the client's own id. */
  lemma {:induction false} AwaitAckedOnlyByOwnAck(msgId: MsgId, timeLeft: int, events: seq<Event>, printed: seq<string>)
    ensures var w := Await(msgId, timeLeft, events, printed);
      w.outcome == GotAck ==> AckedBy(msgId, events, w.rest)
    decreases |events|
  {
    var w := Await(msgId, timeLeft, events, printed);
    if timeLeft > 0 && events != [] && w.outcome == GotAck {
      var rest := events[1..];
      assert events == events[..1] + rest;
      match events[0]
      case ReadFailed =>
      case TimedOut(elapsed) =>
        AwaitAckedOnlyByOwnAck(msgId, TIMEOUT - elapsed, rest, printed);
        AwaitReadsPrefix(msgId, TIMEOUT - elapsed, rest, printed);
        AckedLater(msgId, events, rest, w.rest);
      case Arrived(decoded) =>
        if decoded.Success? && !(decoded.value.Ack? && decoded.value.msgId == msgId) {
          var more := printed + Report(decoded.value);
          AwaitAckedOnlyByOwnAck(msgId, timeLeft, rest, more);
          AwaitReadsPrefix(msgId, timeLeft, rest, more);
          AckedLater(msgId, events, rest, w.rest);
        }
    }
  }

  // ---------------------------------------------------------------------
  // All attempts

  /** How expectACK ends; `Unscripted` only says that the script was too short. */
  datatype Ending = Acked | NotAcked | Exited | Raised | Unscripted

  /** How expectACK ends when an attempt's wait ended other than by running out of time. */
  function EndingOf(outcome: Wait): (e: Ending)
    requires outcome != Expired
    ensures e != NotAcked && (e == Acked <==> outcome == GotAck)
  {
    match outcome
    case GotAck => Acked
    case Exit => Exited
    case Throw => Raised
    case OutOfEvents => Unscripted
  }

  /** The ending, the messages sent and the lines printed so far, and the events left. */
  datatype Run = Run(ending: Ending, sent: seq<Message>, printed: seq<string>, rest: seq<Event>)

  /** The outer loop of expectACK from attempt `i` on: send the request, then wait for its ACK. */
  function Attempts(msgId: MsgId, request: Message, i: nat, events: seq<Event>,
                    sent: seq<Message>, printed: seq<string>): Run
    requires i <= MAX_RESPONSE_ATTEMPTS
    decreases MAX_RESPONSE_ATTEMPTS - i
  {
    if i == MAX_RESPONSE_ATTEMPTS then Run(NotAcked, sent, printed, events)
    else
      var w := Await(msgId, TIMEOUT, events, printed);
      if w.outcome != Expired then Run(EndingOf(w.outcome), sent + [request], w.printed, w.rest)
      else Attempts(msgId, request, i + 1, w.rest, sent + [request], w.printed)
  }

  /** `n` sendings of the same request. */
  function Copies(request: Message, n: nat): (s: seq<Message>)
    ensures |s| == n && forall k :: 0 <= k < n ==> s[k] == request
  {
    if n == 0 then [] else [request] + Copies(request, n - 1)
  }

  /**
   * Every attempt sends the same request once: at least once and at most
   * MAX_RESPONSE_ATTEMPTS times in all, and exactly that often when no ACK came.
   */
  lemma {:induction false} SendCount(msgId: MsgId, request: Message, i: nat, events: seq<Event>,
                                     sent: seq<Message>, printed: seq<string>)
    requires i < MAX_RESPONSE_ATTEMPTS
    ensures var r := Attempts(msgId, request, i, events, sent, printed);
      exists n :: 0 < n <= MAX_RESPONSE_ATTEMPTS - i && r.sent == sent + Copies(request, n)
        && (r.ending == NotAcked ==> n == MAX_RESPONSE_ATTEMPTS - i)
    decreases MAX_RESPONSE_ATTEMPTS - i
  {
    var w := Await(msgId, TIMEOUT, events, printed);
    var r := Attempts(msgId, request, i, events, sent, printed);
    if w.outcome != Expired || i + 1 == MAX_RESPONSE_ATTEMPTS {
      assert r.sent == sent + Copies(request, 1);
    } else {
      SendCount(msgId, request, i + 1, w.rest, sent + [request], w.printed);
      var n :| 0 < n <= MAX_RESPONSE_ATTEMPTS - (i + 1) && r.sent == sent + [request] + Copies(request, n)
        && (r.ending == NotAcked ==> n == MAX_RESPONSE_ATTEMPTS - (i + 1));
      assert Copies(request, n + 1) == [request] + Copies(request, n);
      assert r.sent == sent + Copies(request, n + 1);
    }
  }

  /** The attempts read a prefix of the events. */
  lemma {:induction false} AttemptsReadPrefix(msgId: MsgId, request: Message, i: nat, events: seq<Event>,
                                              sent: seq<Message>, printed: seq<string>)
    requires i <= MAX_RESPONSE_ATTEMPTS
    ensures var r := Attempts(msgId, request, i, events, sent, printed);
      |r.rest| <= |events| && r.rest == events[|events| - |r.rest|..]
    decreases MAX_RESPONSE_ATTEMPTS - i
  {
    if i < MAX_RESPONSE_ATTEMPTS {
      var w := Await(msgId, TIMEOUT, events, printed);
      AwaitReadsPrefix(msgId, TIMEOUT, events, printed);
      if w.outcome == Expired {
        var r := Attempts(msgId, request, i + 1, w.rest, sent + [request], w.printed);
        AttemptsReadPrefix(msgId, request, i + 1, w.rest, sent + [request], w.printed);
        SuffixOfSuffix(events, w.rest, r.rest);
      }
    }
  }

  /** expectACK reports success only after reading an ACK that carries its own message id. */
  lemma {:induction false} AckedOnlyByOwnAck(msgId: MsgId, request: Message, i: nat, events: seq<Event>,
                                             sent: seq<Message>, printed: seq<string>)
    requires i <= MAX_RESPONSE_ATTEMPTS
    ensures var r := Attempts(msgId, request, i, events, sent, printed);
      r.ending == Acked ==> AckedBy(msgId, events, r.rest)
    decreases MAX_RESPONSE_ATTEMPTS - i
  {
    if i < MAX_RESPONSE_ATTEMPTS {
      var w := Await(msgId, TIMEOUT, events, printed);
      AwaitAckedOnlyByOwnAck(msgId, TIMEOUT, events, printed);
      if w.outcome == Expired {
        var r := Attempts(msgId, request, i + 1, w.rest, sent + [request], w.printed);
        AckedOnlyByOwnAck(msgId, request, i + 1, w.rest, sent + [request], w.printed);
        AwaitReadsPrefix(msgId, TIMEOUT, events, printed);
        if r.ending == Acked {
          AckedLater(msgId, events, w.rest, r.rest);
        }
      }
    }
  }

  lemma SuffixOfSuffix(events: seq<Event>, mid: seq<Event>, rest: seq<Event>)
    requires |mid| <= |events| && mid == events[|events| - |mid|..]
    requires |rest| <= |mid| && rest == mid[|mid| - |rest|..]
    ensures rest == events[|events| - |rest|..]
  {
  }

  /** An ACK read after some earlier events was still read from the whole script. */
  lemma AckedLater(msgId: MsgId, events: seq<Event>, mid: seq<Event>, rest: seq<Event>)
    requires |mid| <= |events| && mid == events[|events| - |mid|..]
    requires AckedBy(msgId, mid, rest)
    ensures AckedBy(msgId, events, rest)
  {
    assert events[|events| - |rest| - 1] == mid[|mid| - |rest| - 1];
  }

  // ---------------------------------------------------------------------
  // Properties of the handshake

  /** The datagram that carries `m`, as the client's getMessage reads it. */
  function Datagram(m: Message): (e: Event)
    requires NoTiFiMessage.Valid(m) && NoTiFiMessage.Encodable(m)
    ensures e == Arrived(Success(NoTiFiMessage.Canonicalized(m)))
  {
    DecodeEncode(m);
    Arrived(Decode(Encode(m)))
  }

  /** The awaited ACK ends the wait at once, and nothing is printed for it. */
  lemma MatchingAckEndsWait(msgId: MsgId, timeLeft: int, rest: seq<Event>, printed: seq<string>)
    requires timeLeft > 0
    ensures Await(msgId, timeLeft, [Datagram(Ack(msgId))] + rest, printed) == Waited(GotAck, printed, rest)
  {
    assert ([Datagram(Ack(msgId))] + rest)[1..] == rest;
  }

  /**
   * Any other message that decodes is reported and the wait goes on, with
   * the same time left: the deadline is only consulted after a timeout.
   */
  lemma OtherMessageKeepsWaiting(msgId: MsgId, timeLeft: int, m: Message, rest: seq<Event>, printed: seq<string>)
    requires timeLeft > 0 && NoTiFiMessage.Valid(m) && NoTiFiMessage.Encodable(m) && !(m.Ack? && m.msgId == msgId)
    ensures Await(msgId, timeLeft, [Datagram(m)] + rest, printed)
         == Await(msgId, timeLeft, rest, printed + Report(NoTiFiMessage.Canonicalized(m)))
  {
    assert ([Datagram(m)] + rest)[1..] == rest;
  }

  /** A timeout goes on waiting for the time left until the attempt's deadline, and ends the wait once that is past. */
  lemma TimeoutRecomputesTimeLeft(msgId: MsgId, timeLeft: int, elapsed: nat, rest: seq<Event>, printed: seq<string>)
    requires timeLeft > 0
    ensures Await(msgId, timeLeft, [TimedOut(elapsed)] + rest, printed) == Await(msgId, TIMEOUT - elapsed, rest, printed)
    ensures elapsed >= TIMEOUT ==> Await(msgId, timeLeft, [TimedOut(elapsed)] + rest, printed) == Waited(Expired, printed, rest)
  {
    assert ([TimedOut(elapsed)] + rest)[1..] == rest;
  }

  /** A first attempt that times out is followed by a second sending of the same request. */
  lemma SilenceRetries(msgId: MsgId, request: Message, rest: seq<Event>)
    ensures Attempts(msgId, request, 0, [TimedOut(TIMEOUT)] + rest, [], [])
         == Attempts(msgId, request, 1, rest, [request], [])
  {
    var events := [TimedOut(TIMEOUT)] + rest;
    assert events[0] == TimedOut(TIMEOUT) && events[1..] == rest;
    assert Await(msgId, TIMEOUT, events, []) == Waited(Expired, [], rest);
  }

  /** Two silent attempts: the request went out twice and expectACK gives up. */
  lemma TwoSilencesGiveUp(msgId: MsgId, request: Message, rest: seq<Event>)
    ensures Attempts(msgId, request, 0, [TimedOut(TIMEOUT), TimedOut(TIMEOUT)] + rest, [], [])
         == Run(NotAcked, [request, request], [], rest)
  {
    var later := [TimedOut(TIMEOUT)] + rest;
    assert [TimedOut(TIMEOUT), TimedOut(TIMEOUT)] + rest == [TimedOut(TIMEOUT)] + later;
    SilenceRetries(msgId, request, later);
    assert later[0] == TimedOut(TIMEOUT) && later[1..] == rest;
    assert Await(msgId, TIMEOUT, later, []) == Waited(Expired, [], rest);
  }

  /** An ACK with the client's id answers the second sending after one silent attempt. */
  lemma AckOnSecondAttempt(msgId: MsgId, request: Message)
    ensures Attempts(msgId, request, 0, [TimedOut(TIMEOUT), Arrived(Success(Ack(msgId)))], [], [])
         == Run(Acked, [request, request], [], [])
  {
    var ack := [Arrived(Success(Ack(msgId)))];
    assert [TimedOut(TIMEOUT), Arrived(Success(Ack(msgId)))] == [TimedOut(TIMEOUT)] + ack;
    SilenceRetries(msgId, request, ack);
    assert ack[0] == Arrived(Success(Ack(msgId))) && ack[1..] == [];
    assert Await(msgId, TIMEOUT, ack, []) == Waited(GotAck, [], []);
  }

  /** The datagram 35 10, an ACK for id 16, is reported, and a client with id 15 keeps waiting for 35 0F. */
  lemma ForeignAckReported(request: Message)
    ensures Attempts(15, request, 0, [Arrived(Decode([0x35, 0x10])), Arrived(Decode([0x35, 0x0F]))], [], [])
         == Run(Acked, [request], [UNEXPECTED_MESSAGE_ID], [])
  {
    AckExample();
    assert Encode(Ack(16)) == [0x35, 0x10];
    DecodeEncode(Ack(16));
    var events := [Arrived(Success(Ack(16))), Arrived(Success(Ack(15)))];
    assert events[1..] == [Arrived(Success(Ack(15)))];
    assert Await(15, TIMEOUT, events, []) == Await(15, TIMEOUT, events[1..], [UNEXPECTED_MESSAGE_ID]);
  }

  /**
   * A datagram of an unknown code makes getMessage throw an
   * IllegalArgumentException that expectACK does not catch: the first
   * attempt ends with it, after one sending and with nothing printed.
   */
  lemma UnknownCodeEscapes(msgId: MsgId, request: Message, rest: seq<Event>)
    ensures Attempts(msgId, request, 0, [Arrived(Decode([0x36, 0x00]))] + rest, [], []) == Run(Raised, [request], [], rest)
  {
    UnknownCodeExample();
    var events := [Arrived(Decode([0x36, 0x00]))] + rest;
    assert events[1..] == rest;
  }

  /**
   * The registration handshake end to end: the server accepts a Register
   * that names the client's own endpoint, and its reply, read back by the
   * client, ends expectACK after one sending.
   */
  lemma RegistrationHandshake(clients: NoTiFiServer.Clients, local: NoTiFiServer.Endpoint, msgId: MsgId, rest: seq<Event>)
    requires local !in clients && !NoTiFiServer.IsMulticast(local.address)
    ensures var request := Register(msgId, local.address, local.port);
      var h := NoTiFiServer.Respond(clients, local, Decode(Encode(request)));
      h.clients == clients[local := msgId]
      && Attempts(msgId, request, 0, [Arrived(Decode(Encode(h.reply)))] + rest, [], []) == Run(Acked, [request], [], rest)
  {
    var request := Register(msgId, local.address, local.port);
    DecodeEncode(request);
    var h := NoTiFiServer.Respond(clients, local, Decode(Encode(request)));
    assert h.reply == Ack(msgId);
    MatchingAckEndsWait(msgId, TIMEOUT, rest, []);
  }

  // ---------------------------------------------------------------------
  // The client

  /** ServerHandler's side of the handshake: its message id, its socket's local endpoint, the socket and standard output. */
  class ServerHandler {
    const msgId: MsgId
    const localAddress: Octets
    const localPort: Port
    /** What the socket will give, in order. */
    var events: seq<Event>
    /** The messages sent to the server, in order, each as one datagram holding its encoding. */
    var sent: seq<Message>
    /** The lines printed on standard output. */
    var printed: seq<string>

    constructor (msgId: MsgId, localAddress: Octets, localPort: Port, events: seq<Event>)
      ensures this.msgId == msgId && this.localAddress == localAddress && this.localPort == localPort
      ensures this.events == events && sent == [] && printed == []
    {
      this.msgId := msgId;
      this.localAddress := localAddress;
      this.localPort := localPort;
      this.events := events;
      sent := [];
      printed := [];
    }

    /** expectACK: send `request` and wait for its ACK, sending it once more after a silent attempt. */
    method ExpectAck(request: Message) returns (ending: Ending)
      modifies this`events, this`sent, this`printed
      ensures Run(ending, sent, printed, events) == Attempts(msgId, request, 0, old(events), old(sent), old(printed))
    {
      ghost var goal := Attempts(msgId, request, 0, events, sent, printed);
      var outcome := Expired;
      var i := 0;
      while i < MAX_RESPONSE_ATTEMPTS && outcome == Expired
        invariant i <= MAX_RESPONSE_ATTEMPTS
        invariant outcome == Expired ==> goal == Attempts(msgId, request, i, events, sent, printed)
        invariant outcome != Expired ==> goal == Run(EndingOf(outcome), sent, printed, events)
        decreases MAX_RESPONSE_ATTEMPTS - i
      {
        sent := sent + [request];
        outcome := AwaitAck();
        i := i + 1;
      }
      ending := if outcome == Expired then NotAcked else EndingOf(outcome);
    }

    /** The inner loop of expectACK: receive until the ACK comes or the attempt's time is up. */
    method AwaitAck() returns (outcome: Wait)
      modifies this`events, this`printed
      ensures Waited(outcome, printed, events) == Await(msgId, TIMEOUT, old(events), old(printed))
    {
      var timeLeft := TIMEOUT;
      while timeLeft > 0
        invariant Await(msgId, timeLeft, events, printed) == Await(msgId, TIMEOUT, old(events), old(printed))
        decreases |events|
      {
        if events == [] {
          return OutOfEvents;
        }
        var event := events[0];
        ghost var before, t0, p0 := events, timeLeft, printed;
        events := events[1..];
        assert before == [event] + events;
        match event {
          case ReadFailed =>
            return Exit;
          case TimedOut(elapsed) =>
            timeLeft := TIMEOUT - elapsed;
            assert Await(msgId, t0, before, p0) == Await(msgId, timeLeft, events, printed);
          case Arrived(decoded) =>
            if decoded.Failure? {
              return if decoded.fault.Illegal? then Throw else Exit;
            }
            var reply := decoded.value;
            if reply.Ack? {
              if reply.msgId == msgId {
                return GotAck;
              }
              printed := printed + [UNEXPECTED_MESSAGE_ID];
            } else if reply.Error? {
              printed := printed + [reply.errorMessage];
            }
            assert printed == p0 + Report(reply);
            assert Await(msgId, t0, before, p0) == Await(msgId, timeLeft, events, printed);
        }
      }
      return Expired;
    }

    /** makeConnection: register this socket's endpoint; without an ACK, report it and exit. */
    method MakeConnection() returns (ending: Ending)
      modifies this`events, this`sent, this`printed
      ensures var run := Attempts(msgId, Register(msgId, localAddress, localPort), 0, old(events), old(sent), old(printed));
        ending == run.ending && sent == run.sent && events == run.rest
        && printed == run.printed + (if ending == NotAcked then [REGISTER_PROBLEM] else [])
    {
      var message := NewEndpointMessage(REGISTER, msgId, Some(localAddress), localPort);
      ending := ExpectAck(message.value);
      if ending == NotAcked {
        printed := printed + [REGISTER_PROBLEM];
      }
    }

    /** closeConnection: deregister this socket's endpoint; without an ACK, report it and exit. */
    method CloseConnection() returns (ending: Ending)
      modifies this`events, this`sent, this`printed
      ensures var run := Attempts(msgId, Deregister(msgId, localAddress, localPort), 0, old(events), old(sent), old(printed));
        ending == run.ending && sent == run.sent && events == run.rest
        && printed == run.printed + (if ending == NotAcked then [DEREGISTER_PROBLEM] else [])
    {
      var message := NewEndpointMessage(DEREGISTER, msgId, Some(localAddress), localPort);
      ending := ExpectAck(message.value);
      if ending == NotAcked {
        printed := printed + [DEREGISTER_PROBLEM];
      }
    }
  }
}
