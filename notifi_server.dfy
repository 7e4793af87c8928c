/**
 * The NoTiFi registration server: a UDP endpoint that keeps the clients
 * that registered for location notices, answers Register and Deregister
 * datagrams with an ACK or an error, and sends every registered client an
 * Addition or Deletion notice when the map changes.
 */
module NoTiFiServer {
  import opened JavaLang
  import opened NoTiFiRecord
  import opened NoTiFiMessage

  const UNEXPECTED_MESSAGE_TYPE := "Unexpected message type: "
  const PARSING_PROBLEM := "Unable to parse message"
  const MULTICAST := "Bad address"
  const ALREADY_REGISTERED := "Already registered"
  const MISMATCH_ADDRESS_OR_PORT := "Incorrect port"
  const UNKNOWN_CLIENT := "Unknown client"

  /** An IPv4 socket address: where a datagram came from or goes to. */
  datatype Endpoint = Endpoint(address: Octets, port: Port)

  /** A datagram the server sends. */
  datatype Datagram = Datagram(to: Endpoint, data: seq<byte>)

  type Clients = map<Endpoint, MsgId>

  /** isMulticastAddress() of an IPv4 address: class D, 224.0.0.0 to 239.255.255.255. */
  predicate IsMulticast(address: Octets) {
    224 <= address[0] < 240
  }

  // ---------------------------------------------------------------------
  // One request

  /** The registry after a request and the message sent back to its source. */
  datatype Handled = Handled(clients: Clients, reply: Message)

  /**
   * handleClients for one datagram from `source`, given what decoding its
   * bytes gave.
   */
  function Respond(clients: Clients, source: Endpoint, decoded: Outcome<Message>): (h: Handled)
    ensures h.reply.Ack? || h.reply.Error?
    ensures decoded.Failure? ==> h == Handled(clients, Error(0, if decoded.fault.Illegal? then decoded.fault.message else PARSING_PROBLEM))
    ensures decoded.Success? ==> h.reply.msgId == decoded.value.msgId
  {
    match decoded
    case Failure(Illegal(text)) => Handled(clients, Error(0, text))
    case Failure(IOError(_)) => Handled(clients, Error(0, PARSING_PROBLEM))
    case Success(m) =>
      match m
      case Register(id, address, port) =>
        if IsMulticast(address) then Handled(clients, Error(id, MULTICAST))
        else if port != source.port then Handled(clients, Error(id, MISMATCH_ADDRESS_OR_PORT))
        else if source in clients then Handled(clients, Error(id, ALREADY_REGISTERED))
        else Handled(clients[source := id], Ack(id))
      case Deregister(id, _, _) =>
        if source in clients then Handled(clients - {source}, Ack(id))
        else Handled(clients, Error(id, UNKNOWN_CLIENT))
      case _ => Handled(clients, Error(m.msgId, UNEXPECTED_MESSAGE_TYPE + NatToDecimal(Code(m))))
  }

  /** The reply is an ACK exactly when the request changed the registry. */
  lemma AckIffRegistryChanged(clients: Clients, source: Endpoint, decoded: Outcome<Message>)
    ensures var h := Respond(clients, source, decoded);
      h.reply.Ack? <==> h.clients != clients
  {
    var h := Respond(clients, source, decoded);
    if decoded.Success? && decoded.value.Register? && h.reply.Ack? {
      assert source in h.clients && source !in clients;
    }
    if decoded.Success? && decoded.value.Deregister? && h.reply.Ack? {
      assert source !in h.clients && source in clients;
    }
  }

  /**
   * An accepted Register records the datagram's source under the message id;
   * the address inside the message is only checked for being multicast.
   */
  lemma RegisterRecordsSource(clients: Clients, source: Endpoint, id: MsgId, address: Octets, port: Port)
    ensures var h := Respond(clients, source, Success(Register(id, address, port)));
      h.reply == Ack(id) <==> !IsMulticast(address) && port == source.port && source !in clients
    ensures var h := Respond(clients, source, Success(Register(id, address, port)));
      h.reply.Ack? ==> h.clients == clients[source := id]
  {
  }

  /** A second Register from a registered source keeps the id it registered with. */
  lemma ReregisterKeepsId(clients: Clients, source: Endpoint, id: MsgId, address: Octets)
    requires source in clients && !IsMulticast(address)
    ensures Respond(clients, source, Success(Register(id, address, source.port))) == Handled(clients, Error(id, ALREADY_REGISTERED))
  {
  }

  /** Deregister forgets its source whatever endpoint the message names. */
  lemma DeregisterForgetsSource(clients: Clients, source: Endpoint, id: MsgId, address: Octets, port: Port)
    ensures var h := Respond(clients, source, Success(Deregister(id, address, port)));
      h.clients == clients - {source} && (h.reply == Ack(id) <==> source in clients)
  {
  }

  /** Registering and then deregistering from the same source leaves the registry as it was. */
  lemma RegisterThenDeregister(clients: Clients, source: Endpoint, id: MsgId, address: Octets, id2: MsgId)
    requires source !in clients && !IsMulticast(address)
    ensures var h1 := Respond(clients, source, Success(Register(id, address, source.port)));
      var h2 := Respond(h1.clients, source, Success(Deregister(id2, address, source.port)));
      h1.reply == Ack(id) && h2.reply == Ack(id2) && h2.clients == clients
  {
    var h1 := Respond(clients, source, Success(Register(id, address, source.port)));
    assert h1.clients == clients[source := id];
    assert h1.clients - {source} == clients;
  }

  /** Only Register and Deregister are served; every other message is refused by its code. */
  lemma OtherMessagesRefused(clients: Clients, source: Endpoint, m: Message)
    requires !m.Register? && !m.Deregister?
    ensures Respond(clients, source, Success(m)) == Handled(clients, Error(m.msgId, UNEXPECTED_MESSAGE_TYPE + NatToDecimal(Code(m))))
    ensures Code(m) in {ADDITION, DELETION, ERROR, ACK}
  {
  }

  /** A datagram that decodes to a Register naming its source's port, from a new source, is acknowledged and recorded. */
  lemma RegisterDatagramAcked(clients: Clients, source: Endpoint, pkt: seq<byte>, id: MsgId, address: Octets)
    requires Decode(pkt) == Success(Register(id, address, source.port))
    requires !IsMulticast(address) && source !in clients
    ensures Respond(clients, source, Decode(pkt)) == Handled(clients[source := id], Ack(id))
  {
    RegisterRecordsSource(clients, source, id, address, source.port);
  }

  /** The bytes 30 00 01 02 03 04 88 13 from 1.2.3.4 port 5000 register it and are acknowledged with 35 00. */
  lemma RegisterDatagramExample(clients: Clients)
    requires Endpoint([1, 2, 3, 4], 5000) !in clients
    ensures var source := Endpoint([1, 2, 3, 4], 5000);
      var h := Respond(clients, source, Decode([0x30, 0x00, 0x01, 0x02, 0x03, 0x04, 0x88, 0x13]));
      h.clients == clients[source := 0] && Encode(h.reply) == [0x35, 0x00]
  {
    RegisterExample();
    RegisterDatagramAcked(clients, Endpoint([1, 2, 3, 4], 5000), [0x30, 0x00, 0x01, 0x02, 0x03, 0x04, 0x88, 0x13], 0, [4, 3, 2, 1]);
    AckBytes(0);
  }

  /** An empty datagram cannot be decoded and gets error text from the server itself, with id 0. */
  lemma EmptyDatagramRefused(clients: Clients, source: Endpoint)
    ensures Respond(clients, source, Decode([])) == Handled(clients, Error(0, PARSING_PROBLEM))
  {
  }

  // ---------------------------------------------------------------------
  // Notices

  /** The notice of an addition (or, when `deletion` holds, a deletion) for a client with the given id. */
  function Notice(deletion: bool, msgId: MsgId, record: LocationRecord): (m: Message)
    ensures Code(m) == if deletion then DELETION else ADDITION
    ensures m.msgId == msgId && m.record == record
  {
    if deletion then Deletion(msgId, record) else Addition(msgId, record)
  }

  /** The datagram that carries a client's notice. */
  function NoticeTo(clients: Clients, to: Endpoint, deletion: bool, record: LocationRecord): Datagram
    requires to in clients
  {
    Datagram(to, Encode(Notice(deletion, clients[to], record)))
  }

  /**
   * `out` holds one datagram per registered client, to that client and
   * carrying the notice under the id it registered with.
   */
  ghost predicate Notified(out: seq<Datagram>, clients: Clients, deletion: bool, record: LocationRecord) {
    (forall i :: 0 <= i < |out| ==>
          out[i].to in clients && out[i] == NoticeTo(clients, out[i].to, deletion, record))
    && (forall i, j :: 0 <= i < j < |out| ==> out[i].to != out[j].to)
    && (forall e :: e in clients ==> exists i :: 0 <= i < |out| && out[i].to == e)
  }

  /** Every datagram of `out` went to a client in `done` and carries that client's notice. */
  ghost predicate SentToDone(out: seq<Datagram>, clients: Clients, done: set<Endpoint>, deletion: bool, record: LocationRecord) {
    forall i :: 0 <= i < |out| ==>
      out[i].to in done && out[i].to in clients && out[i] == NoticeTo(clients, out[i].to, deletion, record)
  }

  /** No two datagrams of `out` go to the same endpoint. */
  ghost predicate DistinctTo(out: seq<Datagram>) {
    forall i, j :: 0 <= i < j < |out| ==> out[i].to != out[j].to
  }

  /** Every endpoint in `done` has a datagram in `out`. */
  ghost predicate Reached(out: seq<Datagram>, done: set<Endpoint>) {
    forall e :: e in done ==> exists i :: 0 <= i < |out| && out[i].to == e
  }

  /** `out` is the part of a notice round that has reached the clients in `done`. */
  ghost predicate NotifiedSoFar(out: seq<Datagram>, clients: Clients, done: set<Endpoint>, deletion: bool, record: LocationRecord) {
    SentToDone(out, clients, done, deletion, record) && DistinctTo(out) && Reached(out, done)
  }

  /** Sending the next client its notice extends a partial notice round. */
  lemma NoticeAppended(out: seq<Datagram>, out': seq<Datagram>, clients: Clients, done: set<Endpoint>, done': set<Endpoint>,
                       deletion: bool, record: LocationRecord, key: Endpoint)
    requires NotifiedSoFar(out, clients, done, deletion, record)
    requires key in clients && key !in done
    requires out' == out + [NoticeTo(clients, key, deletion, record)] && done' == done + {key}
    ensures NotifiedSoFar(out', clients, done', deletion, record)
  {
    SentToAppended(out, out', clients, done, done', deletion, record, key);
    DistinctAppended(out, out', clients, done, deletion, record, key);
    ReachedAppended(out, out', done, done', key);
  }

  lemma SentToAppended(out: seq<Datagram>, out': seq<Datagram>, clients: Clients, done: set<Endpoint>, done': set<Endpoint>,
                       deletion: bool, record: LocationRecord, key: Endpoint)
    requires SentToDone(out, clients, done, deletion, record)
    requires key in clients && out' == out + [NoticeTo(clients, key, deletion, record)] && done' == done + {key}
    ensures SentToDone(out', clients, done', deletion, record)
  {
  }

  lemma DistinctAppended(out: seq<Datagram>, out': seq<Datagram>, clients: Clients, done: set<Endpoint>,
                         deletion: bool, record: LocationRecord, key: Endpoint)
    requires SentToDone(out, clients, done, deletion, record) && DistinctTo(out)
    requires key in clients && key !in done && out' == out + [NoticeTo(clients, key, deletion, record)]
    ensures DistinctTo(out')
  {
  }

  lemma ReachedAppended(out: seq<Datagram>, out': seq<Datagram>, done: set<Endpoint>, done': set<Endpoint>, key: Endpoint)
    requires Reached(out, done)
    requires |out'| == |out| + 1 && out'[..|out|] == out && out'[|out|].to == key && done' == done + {key}
    ensures Reached(out', done')
  {
    forall e | e in done'
      ensures exists i :: 0 <= i < |out'| && out'[i].to == e
    {
      if e == key {
        assert out'[|out|].to == e;
      } else {
        var i :| 0 <= i < |out| && out[i].to == e;
        assert out'[i].to == e;
      }
    }
  }

  /** A round that has reached every client is a complete one. */
  lemma NotifiedAll(out: seq<Datagram>, clients: Clients, deletion: bool, record: LocationRecord)
    requires NotifiedSoFar(out, clients, clients.Keys, deletion, record)
    ensures Notified(out, clients, deletion, record)
  {
  }

  /** The endpoints a sequence of datagrams goes to. */
  ghost function Destinations(out: seq<Datagram>): set<Endpoint> {
    set i | 0 <= i < |out| :: out[i].to
  }

  /** Datagrams to pairwise different endpoints go to as many endpoints as there are datagrams. */
  lemma {:induction false} DistinctDestinations(out: seq<Datagram>)
    requires forall i, j :: 0 <= i < j < |out| ==> out[i].to != out[j].to
    ensures |Destinations(out)| == |out|
  {
    if out != [] {
      var n := |out| - 1;
      DistinctDestinations(out[..n]);
      assert Destinations(out) == Destinations(out[..n]) + {out[n].to};
      assert out[n].to !in Destinations(out[..n]);
    }
  }

  /** A notice round sends exactly one datagram per registered client. */
  lemma NoticeCount(out: seq<Datagram>, clients: Clients, deletion: bool, record: LocationRecord)
    requires Notified(out, clients, deletion, record)
    ensures |out| == |clients|
  {
    DistinctDestinations(out);
    assert Destinations(out) == clients.Keys;
  }

  // ---------------------------------------------------------------------
  // The server

  class Registry {
    /** clientList: each registered endpoint and the message id it registered with. */
    var clients: Clients
    /** The datagrams sent so far, in order. */
    var sent: seq<Datagram>

    constructor ()
      ensures clients == map[] && sent == []
    {
      clients := map[];
      sent := [];
    }

    /** handleClients: decode one received datagram, update the registry and answer its source. */
    method HandleClients(source: Endpoint, data: seq<byte>)
      modifies this
      ensures var h := Respond(old(clients), source, Decode(data));
        clients == h.clients && sent == old(sent) + [Datagram(source, Encode(h.reply))]
    {
      var decoded := Decode(data);
      var response: Message;
      if decoded.Failure? {
        if decoded.fault.Illegal? {
          response := Error(0, decoded.fault.message);
        } else {
          response := Error(0, PARSING_PROBLEM);
        }
      } else {
        var received := decoded.value;
        if received.Register? {
          if !IsMulticast(received.address) {
            if received.port == source.port {
              if source !in clients {
                response := Ack(received.msgId);
                clients := clients[source := received.msgId];
              } else {
                response := Error(received.msgId, ALREADY_REGISTERED);
              }
            } else {
              response := Error(received.msgId, MISMATCH_ADDRESS_OR_PORT);
            }
          } else {
            response := Error(received.msgId, MULTICAST);
          }
        } else if received.Deregister? {
          if source in clients {
            response := Ack(received.msgId);
            clients := clients - {source};
          } else {
            response := Error(received.msgId, UNKNOWN_CLIENT);
          }
        } else {
          response := Error(received.msgId, UNEXPECTED_MESSAGE_TYPE + NatToDecimal(Code(received)));
        }
      }
      sent := sent + [Datagram(source, Encode(response))];
    }

    /**
     * notifyAddition and notifyDeletion: build the record once per client and
     * send each client its notice. A record the setters refuse is only built,
     * and its fault only raised, when some client is registered.
     */
    method Notify(deletion: bool, userId: int32, longitude: Bits64, latitude: Bits64,
                  name: Option<string>, description: Option<string>) returns (thrown: Option<Fault>)
      modifies this`sent
      ensures var made := MakeRecord(userId, longitude, latitude, name, description);
        thrown == if clients != map[] && made.Failure? then Some(made.fault) else None
      ensures thrown.Some? || clients == map[] ==> sent == old(sent)
      ensures var made := MakeRecord(userId, longitude, latitude, name, description);
        made.Success? ==>
          exists out :: sent == old(sent) + out && Notified(out, clients, deletion, made.value)
    {
      var made := MakeRecord(userId, longitude, latitude, name, description);
      if clients == map[] {
        assert sent == old(sent) + [] && Notified([], clients, deletion, LocationRecord(0, 0, 0, "", ""));
        return None;
      }
      if made.Failure? {
        return Some(made.fault);
      }
      ghost var out := SendNotices(deletion, made.value);
      thrown := None;
    }

    /** The loop of notifyAddition and notifyDeletion over the registered clients, in no particular order. */
    method SendNotices(deletion: bool, record: LocationRecord) returns (ghost out: seq<Datagram>)
      modifies this`sent
      ensures sent == old(sent) + out && Notified(out, clients, deletion, record)
    {
      var registered := clients;
      var keys := registered.Keys;
      ghost var done: set<Endpoint> := {};
      out := [];
      while keys != {}
        invariant keys + done == registered.Keys && keys !! done
        invariant sent == old(sent) + out
        invariant NotifiedSoFar(out, registered, done, deletion, record)
        decreases keys
      {
        var key :| key in keys;
        var datagram := NoticeTo(registered, key, deletion, record);
        ghost var out', done' := out + [datagram], done + {key};
        NoticeAppended(out, out', registered, done, done', deletion, record, key);
        sent := sent + [datagram];
        out, done := out', done';
        keys := keys - {key};
      }
      NotifiedAll(out, registered, deletion, record);
    }
  }
}
