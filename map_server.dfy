/**
 * The AddATude map server: the tables it keeps (map names, user names and,
 * for every map, the users' current locations), the reply it chooses for each
 * decoded message, and the two front ends that drive it: the per-datagram
 * handler of the asynchronous server (AddATudeAIOHandler.handleMessage) and
 * the per-connection loop of the threaded server (ClientHandler.handleClient).
 */
module MapServer {
  import opened JavaLang
  import opened TextInput
  import opened TextOutput
  import opened TextRecord
  import opened TextMessage
  import NoTiFiRecord

  /** locationMap: the records of every map, in list order. */
  type Locations = map<int32, seq<LocationRecord>>

  /** nameMap and usernameMap, filled in before the server accepts clients and never changed. */
  datatype Directory = Directory(names: map<int32, string>, users: map<int32, string>)

  /** A notification updateMap hands to the NoTiFi server. */
  datatype Notice = Deleted(record: LocationRecord) | Added(record: LocationRecord)

  /**
   * The message a handler is left with: one to encode, or null (makeError
   * or makeResponse caught an exception), which makes the following
   * encode throw NullPointerException, or none at all because an
   * IllegalArgumentException escaped from updateMap before a reply was made.
   */
  datatype Reply = Send(message: Message) | NullReply | Escaped

  /** What one decoded message does: the new location table, the notifications, the reply. */
  datatype Step = Step(locations: Locations, notices: seq<Notice>, reply: Reply)

  function Unchanged(locations: Locations, reply: Reply): Step {
    Step(locations, [], reply)
  }

  // ---------------------------------------------------------------------
  // Replies

  const UNPARSABLE: string := "Unable to parse message"

  /** makeError: the AddATudeError constructor refuses a negative map id, and the helper returns null. */
  function ErrorReply(mapId: int32, text: string): (r: Reply)
    ensures r.Send? <==> 0 <= mapId
    ensures r.Send? ==> r.message == Error(mapId, text)
  {
    var e := MakeError(mapId, Some(text));
    if e.Ok? then Send(e.value) else NullReply
  }

  /** The catch clauses around decode: which error message each failure is answered with. */
  function FailureReply(f: Failure): Reply {
    match f
    case Version(text) => ErrorReply(0, text)
    case Operation(mapId, text) => ErrorReply(mapId, text)
    case _ => ErrorReply(0, UNPARSABLE)
  }

  /** A failed decode is always answered with an error, and only an unknown operation under a negative map id leaves none. */
  lemma FailureReplyIsError(f: Failure)
    ensures FailureReply(f).NullReply? <==> f.Operation? && f.mapId < 0
    ensures FailureReply(f).Send? ==> FailureReply(f).message.Error?
    ensures !f.Operation? ==> FailureReply(f).Send? && FailureReply(f).message.mapId == 0
  {
  }

  /**
   * makeResponse: a response under the map's name listing the map's records
   * in list order; a map without a name makes the constructor throw, and the
   * helper returns null.
   */
  function ResponseReply(dir: Directory, locations: Locations, mapId: MapId): Reply
    requires mapId in locations
  {
    if mapId in dir.names then Send(LocationResponse(mapId, dir.names[mapId], locations[mapId])) else NullReply
  }

  // ---------------------------------------------------------------------
  // updateMap, on values

  /** The position of the user's first record, if the user has one. */
  function FirstOfUser(records: seq<LocationRecord>, userId: int32): (k: Option<nat>)
    ensures k.Some? ==> k.value < |records| && records[k.value].userId == userId
    ensures forall j :: 0 <= j < (if k.Some? then k.value else |records|) ==> records[j].userId != userId
  {
    if records == [] then None
    else if records[0].userId == userId then Some(0)
    else match FirstOfUser(records[1..], userId)
      case None => None
      case Some(k) => Some(k + 1)
  }

  /** The user's records, in list order. */
  function RecordsOf(records: seq<LocationRecord>, userId: int32): seq<LocationRecord> {
    if records == [] then []
    else (if records[0].userId == userId then [records[0]] else []) + RecordsOf(records[1..], userId)
  }

  /** No user has two records in the list. */
  predicate UniqueUsers(records: seq<LocationRecord>) {
    forall i, j :: 0 <= i < j < |records| ==> records[i].userId != records[j].userId
  }

  /** Every map keeps at most one record per user. */
  predicate UniqueInEveryMap(locations: Locations) {
    forall mapId :: mapId in locations ==> UniqueUsers(locations[mapId])
  }

  /** The list after updateMap: the user's first record replaced by the new one, or the new one appended. */
  function Updated(records: seq<LocationRecord>, record: LocationRecord): seq<LocationRecord> {
    if records == [] then [record]
    else if records[0].userId == record.userId then [record] + records[1..]
    else [records[0]] + Updated(records[1..], record)
  }

  /** The deletion notifyDeletion reports: the user's first record, if the user has one. */
  function Replaced(records: seq<LocationRecord>, userId: int32): seq<Notice> {
    match FirstOfUser(records, userId)
    case Some(k) => [Deleted(records[k])]
    case None => []
  }

  /** The notifications of updateMap: the replaced record's deletion first, then the new record's addition. */
  function UpdateNotices(records: seq<LocationRecord>, record: LocationRecord): seq<Notice> {
    Replaced(records, record.userId) + [Added(record)]
  }

  /**
   * Whether notifyDeletion and notifyAddition can build the NoTiFi record of
   * an AddATude record: the binary LocationRecord's setters refuse a user id
   * with bits above the low 16, and a name or a description longer than 255
   * UTF-16 units, with an IllegalArgumentException that neither catch clause
   * of updateMap takes.
   */
  predicate Bridgeable(r: LocationRecord) {
    0 <= r.userId < 0x1_0000 && JavaLength(r.name) <= 255 && JavaLength(r.description) <= 255
  }

  /** The NoTiFi record constructor accepts an AddATude record's fields exactly when it is bridgeable, whatever its coordinates parse to. */
  lemma BridgeableIffBuilt(r: LocationRecord, longitude: NoTiFiRecord.Bits64, latitude: NoTiFiRecord.Bits64)
    ensures Bridgeable(r) <==>
      NoTiFiRecord.MakeRecord(r.userId, longitude, latitude, Some(r.name), Some(r.description)).Success?
  {
  }

  /**
   * What updateMap leaves: the map's new list, the notifications handed to
   * the NoTiFi server, and whether an exception escaped.
   */
  datatype Update = Update(records: seq<LocationRecord>, notices: seq<Notice>, escaped: bool)

  /**
   * updateMap on values. With a NoTiFi client registered (listening), a
   * replaced record that cannot be bridged makes notifyDeletion throw before
   * the list is touched, and a new record that cannot be bridged makes
   * notifyAddition throw after the list was updated. Without a client the
   * notify loops build nothing and cannot throw.
   */
  function UpdateOf(records: seq<LocationRecord>, record: LocationRecord, listening: bool): Update {
    var k := FirstOfUser(records, record.userId);
    if listening && k.Some? && !Bridgeable(records[k.value]) then Update(records, [], true)
    else if listening && !Bridgeable(record) then Update(Updated(records, record), Replaced(records, record.userId), true)
    else Update(Updated(records, record), UpdateNotices(records, record), false)
  }

  /** The record under the name updateMap gives it: the user's name, a colon and a space, the location name. */
  function Renamed(location: LocationRecord, userName: string): LocationRecord {
    SetLocationName(location, Some(userName + ": " + location.name)).value
  }

  /** The updated list is the old one with the user's first record overwritten in place, or with the record at the end. */
  lemma {:induction false} UpdatedIndex(records: seq<LocationRecord>, record: LocationRecord)
    ensures FirstOfUser(records, record.userId).Some? ==>
      Updated(records, record) == records[FirstOfUser(records, record.userId).value := record]
    ensures FirstOfUser(records, record.userId).None? ==> Updated(records, record) == records + [record]
  {
    if records != [] && records[0].userId != record.userId {
      UpdatedIndex(records[1..], record);
      assert records == [records[0]] + records[1..];
    }
  }

  /** The list grows by one exactly when the user had no record in it. */
  lemma UpdatedLength(records: seq<LocationRecord>, record: LocationRecord)
    ensures |Updated(records, record)| == |records| + 1 <==> RecordsOf(records, record.userId) == []
    ensures |Updated(records, record)| == |records| <==> RecordsOf(records, record.userId) != []
  {
    UpdatedIndex(records, record);
    NoRecordsOf(records, record.userId);
  }

  /** A user has records exactly when FirstOfUser finds one. */
  lemma {:induction false} NoRecordsOf(records: seq<LocationRecord>, userId: int32)
    ensures RecordsOf(records, userId) == [] <==> FirstOfUser(records, userId).None?
  {
    if records != [] {
      NoRecordsOf(records[1..], userId);
    }
  }

  /** Other users' records are untouched, in content and in order. */
  lemma {:induction false} UpdatedKeepsOthers(records: seq<LocationRecord>, record: LocationRecord, userId: int32)
    requires userId != record.userId
    ensures RecordsOf(Updated(records, record), userId) == RecordsOf(records, userId)
  {
    if records == [] {
    } else if records[0].userId == record.userId {
      assert [record] + records[1..] == [record] + records[1..];
    } else {
      UpdatedKeepsOthers(records[1..], record, userId);
    }
  }

  /** In a list with one record per user, the updated list holds exactly one record of the user: the new one. */
  lemma {:induction false} UpdatedHoldsRecord(records: seq<LocationRecord>, record: LocationRecord)
    requires UniqueUsers(records)
    ensures RecordsOf(Updated(records, record), record.userId) == [record]
  {
    if records == [] {
    } else if records[0].userId == record.userId {
      var tail := records[1..];
      NoRecordsOf(tail, record.userId);
      assert Updated(records, record) == [record] + tail;
      assert ([record] + tail)[1..] == tail;
    } else {
      UpdatedHoldsRecord(records[1..], record);
    }
  }

  /** updateMap keeps one record per user. */
  lemma UpdatedKeepsUsersUnique(records: seq<LocationRecord>, record: LocationRecord)
    requires UniqueUsers(records)
    ensures UniqueUsers(Updated(records, record))
  {
    UpdatedIndex(records, record);
    var after := Updated(records, record);
    forall i, j | 0 <= i < j < |after|
      ensures after[i].userId != after[j].userId
    {
      if FirstOfUser(records, record.userId).None? {
        assert j == |records| ==> records[i].userId != record.userId;
      }
    }
  }

  /**
   * In a list with one record per user, the notifications report the user's
   * previous record as deleted, if there was one, and then the new record
   * as added. With a NoTiFi client registered, a previous record that cannot
   * be bridged stops updateMap with nothing changed or reported, and a new
   * record that cannot be bridged stops it after the list was updated and
   * the deletion reported.
   */
  lemma NoticesReportReplacement(records: seq<LocationRecord>, record: LocationRecord, listening: bool)
    requires UniqueUsers(records)
    ensures var before := RecordsOf(records, record.userId);
      var u := UpdateOf(records, record, listening);
      var deletedFails := listening && before != [] && !Bridgeable(before[0]);
      |before| <= 1 &&
      (deletedFails ==> u == Update(records, [], true)) &&
      (!deletedFails ==>
        u.records == Updated(records, record) &&
        u.escaped == (listening && !Bridgeable(record)) &&
        u.notices == (if before == [] then [] else [Deleted(before[0])]) + (if u.escaped then [] else [Added(record)]))
  {
    OneRecordOf(records, record.userId);
    NoRecordsOf(records, record.userId);
    if FirstOfUser(records, record.userId).Some? {
      FirstRecordOf(records, record.userId);
    }
  }

  /** With one record per user, a user has at most one record. */
  lemma {:induction false} OneRecordOf(records: seq<LocationRecord>, userId: int32)
    requires UniqueUsers(records)
    ensures |RecordsOf(records, userId)| <= 1
  {
    if records != [] {
      OneRecordOf(records[1..], userId);
      if records[0].userId == userId {
        NoRecordsOf(records[1..], userId);
      }
    }
  }

  /** The first of a user's records is the one FirstOfUser finds. */
  lemma {:induction false} FirstRecordOf(records: seq<LocationRecord>, userId: int32)
    requires FirstOfUser(records, userId).Some?
    ensures RecordsOf(records, userId) != [] && RecordsOf(records, userId)[0] == records[FirstOfUser(records, userId).value]
  {
    if records[0].userId != userId {
      FirstRecordOf(records[1..], userId);
    }
  }

  // ---------------------------------------------------------------------
  // The reply to a decoded message

  /**
   * The decision table of handleMessage and handleClient: an unknown map,
   * then by operation: NEW from a known user updates the map and lists it,
   * NEW from an unknown user, ALL lists the map, anything else is unexpected.
   * listening says whether the NoTiFi server has a registered client.
   */
  function Answer(locations: Locations, dir: Directory, listening: bool, m: Message): Step {
    if m.mapId !in locations then Unchanged(locations, ErrorReply(m.mapId, "No such map: " + NatToDecimal(m.mapId)))
    else match m
      case NewLocation(mapId, location) =>
        if location.userId in dir.users then
          var u := UpdateOf(locations[mapId], Renamed(location, dir.users[location.userId]), listening);
          var after := locations[mapId := u.records];
          Step(after, u.notices, if u.escaped then Escaped else ResponseReply(dir, after, mapId))
        else Unchanged(locations, ErrorReply(mapId, "No such user: " + IntToDecimal(location.userId)))
      case LocationRequest(mapId) => Unchanged(locations, ResponseReply(dir, locations, mapId))
      case _ => Unchanged(locations, ErrorReply(m.mapId, "Unexpected message type: " + OperationName(m)))
  }

  /** What a handler does with the outcome of decode. */
  function Handled(locations: Locations, dir: Directory, listening: bool, decoded: Result<Message>): Step {
    if decoded.Fail? then Unchanged(locations, FailureReply(decoded.failure)) else Answer(locations, dir, listening, decoded.value)
  }

  /**
   * Only a NEW message for a known map from a known user changes anything,
   * and no map is ever added or removed.
   */
  lemma OnlyNewLocationChanges(locations: Locations, dir: Directory, listening: bool, m: Message)
    ensures var step := Answer(locations, dir, listening, m);
      step.locations.Keys == locations.Keys &&
      (step.locations != locations || step.notices != [] ==>
        m.NewLocation? && m.mapId in locations && m.location.userId in dir.users)
  {
  }

  /** Every map keeps one record per user whatever message arrives. */
  lemma AnswerKeepsUsersUnique(locations: Locations, dir: Directory, listening: bool, m: Message)
    requires UniqueInEveryMap(locations)
    ensures UniqueInEveryMap(Answer(locations, dir, listening, m).locations)
  {
    if m.NewLocation? && m.mapId in locations && m.location.userId in dir.users {
      UpdatedKeepsUsersUnique(locations[m.mapId], Renamed(m.location, dir.users[m.location.userId]));
    }
  }

  /**
   * A NEW message from a known user is left unanswered exactly when a NoTiFi
   * client is registered and the user's previous record or the renamed new
   * one cannot be bridged. Otherwise it is answered, when the map has a
   * name, with the whole updated map: the user's one record is the new one
   * and every other user's records are as before.
   */
  lemma NewLocationListsMap(locations: Locations, dir: Directory, listening: bool, m: Message)
    requires m.NewLocation? && m.mapId in locations && m.mapId in dir.names && m.location.userId in dir.users
    requires UniqueUsers(locations[m.mapId])
    ensures var step := Answer(locations, dir, listening, m);
      var record := Renamed(m.location, dir.users[m.location.userId]);
      var before := RecordsOf(locations[m.mapId], m.location.userId);
      (step.reply.Escaped? <==> listening && (!Bridgeable(record) || (before != [] && !Bridgeable(before[0])))) &&
      (!step.reply.Escaped? ==>
        step.reply.Send? && step.reply.message.LocationResponse? &&
        step.reply.message.mapName == dir.names[m.mapId] &&
        RecordsOf(step.reply.message.records, m.location.userId) == [record] &&
        forall u :: u != m.location.userId ==>
          RecordsOf(step.reply.message.records, u) == RecordsOf(locations[m.mapId], u))
  {
    var record := Renamed(m.location, dir.users[m.location.userId]);
    NoticesReportReplacement(locations[m.mapId], record, listening);
    UpdatedHoldsRecord(locations[m.mapId], record);
    forall u | u != m.location.userId
      ensures RecordsOf(Updated(locations[m.mapId], record), u) == RecordsOf(locations[m.mapId], u)
    {
      UpdatedKeepsOthers(locations[m.mapId], record, u);
    }
  }

  /**
   * With a NoTiFi client registered, a NEW whose renamed location name
   * ("user: name") is longer than 255 characters is left without a reply,
   * whatever the map holds.
   */
  lemma LongNameUnanswered(locations: Locations, dir: Directory, m: Message)
    requires m.NewLocation? && m.mapId in locations && m.location.userId in dir.users
    requires |dir.users[m.location.userId]| + 2 + |m.location.name| > 255
    ensures Answer(locations, dir, true, m).reply == Escaped
  {
    var record := Renamed(m.location, dir.users[m.location.userId]);
    assert |record.name| > 255;
  }

  /** The AIO handler answers a frame holding one well-formed message just as the decision table says. */
  lemma FrameOfMessage(locations: Locations, dir: Directory, listening: bool, m: Message)
    requires EncodableMessage(m)
    ensures Handled(locations, dir, listening, MessageFrom(Ascii(MessageText(m))).result) == Answer(locations, dir, listening, m)
  {
    MessageRoundTrip(m, []);
    assert Ascii(MessageText(m)) + [] == Ascii(MessageText(m));
  }

  /** The bytes the AIO handler returns: the encoded reply, or nothing when an exception escaped. */
  function ReplyBytes(reply: Reply): Option<seq<byte>> {
    if reply.Send? then Some(Ascii(MessageText(reply.message))) else None
  }

  // ---------------------------------------------------------------------
  // The threaded server's loop, on values

  /** One pass of handleClient's loop: decode hit end of input, or a step and whether the loop is done. */
  datatype Pass = Stop | Pass(step: Step, done: bool, rest: seq<Item>)

  /**
   * One pass: end of input stops the loop without a reply; a failure caused
   * by an IOException (a timeout) sends the error and ends the loop; any
   * other failure sends the error and purges to the next CR LF, and a purge
   * that fails ends the loop after the reply.
   */
  function ClientPass(locations: Locations, dir: Directory, listening: bool, s: seq<Item>): (p: Pass)
    ensures p.Pass? ==> |p.rest| < |s|
  {
    MessageProgress(s);
    var decoded := MessageFrom(s);
    match decoded.result
    case Ok(m) => Pass(Answer(locations, dir, listening, m), false, decoded.rest)
    case Fail(Eof) => Stop
    case Fail(Parse(true)) => Pass(Unchanged(locations, FailureReply(Parse(true))), true, decoded.rest)
    case Fail(f) =>
      var purge := PurgeToEoln(decoded.rest);
      PurgeFromProgress(decoded.rest, false);
      Pass(Unchanged(locations, FailureReply(f)), purge.result.Fail?, purge.rest)
  }

  /**
   * How a connection ends: the location table, the notifications, the bytes
   * written, and whether an uncaught exception (encode of null, or one from
   * updateMap) ended the thread.
   */
  datatype Ending = Ending(locations: Locations, notices: seq<Notice>, written: seq<byte>, crashed: bool)

  /**
   * handleClient over the whole input, from the given table, notifications
   * and written bytes. A broken output stream makes every encode fail; the
   * failure is caught and the loop goes on.
   */
  function Session(locations: Locations, dir: Directory, listening: bool, broken: bool, notices: seq<Notice>,
                   written: seq<byte>, s: seq<Item>): Ending
    decreases |s|
  {
    match ClientPass(locations, dir, listening, s)
    case Stop => Ending(locations, notices, written, false)
    case Pass(step, done, rest) =>
      if !step.reply.Send? then Ending(step.locations, notices + step.notices, written, true)
      else
        var sent := if broken then written else written + Ascii(MessageText(step.reply.message));
        if done then Ending(step.locations, notices + step.notices, sent, false)
        else Session(step.locations, dir, listening, broken, notices + step.notices, sent, rest)
  }

  /**
   * The reference behaviour for a client that sends well-formed messages:
   * each is answered in turn from the table the previous ones left, and the
   * connection ends after the last.
   */
  function Replay(locations: Locations, dir: Directory, listening: bool, ms: seq<Message>, notices: seq<Notice>,
                  written: seq<byte>): Ending
    decreases |ms|
  {
    if ms == [] then Ending(locations, notices, written, false)
    else
      var step := Answer(locations, dir, listening, ms[0]);
      if !step.reply.Send? then Ending(step.locations, notices + step.notices, written, true)
      else Replay(step.locations, dir, listening, ms[1..], notices + step.notices, written + Ascii(MessageText(step.reply.message)))
  }

  /** The messages one after another, as a client writes them. */
  function MessagesText(ms: seq<Message>): string {
    if ms == [] then "" else MessageText(ms[0]) + MessagesText(ms[1..])
  }

  /** Reading at the end of input is an EOFException. */
  lemma NothingToDecode()
    ensures MessageFrom([]).result == Fail(Eof)
  {
  }

  /** One pass over a well-formed message answers it as the decision table says and leaves the input after it. */
  lemma PassOfMessage(locations: Locations, dir: Directory, listening: bool, m: Message, rest: seq<Item>)
    requires EncodableMessage(m)
    ensures ClientPass(locations, dir, listening, Ascii(MessageText(m)) + rest) == Pass(Answer(locations, dir, listening, m), false, rest)
  {
    MessageRoundTrip(m, rest);
  }

  /** A pass that answered a message and did not end the loop goes on with the rest of the input. */
  lemma SessionStep(locations: Locations, dir: Directory, listening: bool, notices: seq<Notice>, written: seq<byte>,
                    s: seq<Item>, step: Step, rest: seq<Item>)
    requires ClientPass(locations, dir, listening, s) == Pass(step, false, rest)
    ensures Session(locations, dir, listening, false, notices, written, s) ==
      if !step.reply.Send? then Ending(step.locations, notices + step.notices, written, true)
      else Session(step.locations, dir, listening, false, notices + step.notices, written + Ascii(MessageText(step.reply.message)), rest)
  {
  }

  /**
   * The threaded server answers a stream of well-formed messages exactly as
   * the reference replays them, up to the first message whose handling
   * throws.
   */
  lemma {:induction false} SessionReplaysMessages(locations: Locations, dir: Directory, listening: bool, ms: seq<Message>,
                                                 notices: seq<Notice>, written: seq<byte>)
    requires forall i :: 0 <= i < |ms| ==> EncodableMessage(ms[i])
    ensures Session(locations, dir, listening, false, notices, written, Ascii(MessagesText(ms))) ==
            Replay(locations, dir, listening, ms, notices, written)
    decreases |ms|
  {
    if ms == [] {
      NothingToDecode();
    } else {
      var rest := Ascii(MessagesText(ms[1..]));
      AsciiConcat(MessageText(ms[0]), MessagesText(ms[1..]));
      PassOfMessage(locations, dir, listening, ms[0], rest);
      var step := Answer(locations, dir, listening, ms[0]);
      SessionStep(locations, dir, listening, notices, written, Ascii(MessagesText(ms)), step, rest);
      if step.reply.Send? {
        SessionReplaysMessages(step.locations, dir, listening, ms[1..], notices + step.notices,
                               written + Ascii(MessageText(step.reply.message)));
      }
    }
  }

  // ---------------------------------------------------------------------
  // The server's state

  class MapRegistry {
    /** locationMap: every map's records. */
    var locations: Locations
    /** nameMap and usernameMap. */
    const directory: Directory
    /** The notifications handed to the NoTiFi server so far. */
    var notices: seq<Notice>
    /** Whether the NoTiFi server has a registered client, so that its notify loops build records. */
    var listening: bool

    constructor (directory: Directory, locations: Locations, listening: bool)
      ensures this.directory == directory && this.locations == locations && notices == []
      ensures this.listening == listening
    {
      this.directory := directory;
      this.locations := locations;
      notices := [];
      this.listening := listening;
    }

    /**
     * updateMap: renames the record after its user, walks the map's list
     * until it meets the user's record, replaces it and reports its deletion,
     * appends the record when the user had none, then reports the addition.
     * escaped is the IllegalArgumentException a notify call lets through.
     */
    method UpdateMap(mapId: int32, location: LocationRecord) returns (escaped: bool)
      requires mapId in locations && location.userId in directory.users
      modifies this`locations, this`notices
      ensures var u := UpdateOf(old(locations)[mapId], Renamed(location, directory.users[location.userId]), listening);
        locations == old(locations)[mapId := u.records] && notices == old(notices) + u.notices && escaped == u.escaped
    {
      var record := Renamed(location, directory.users[location.userId]);
      ghost var original := locations[mapId];
      var mapList := locations[mapId];
      var found := false;
      var i := 0;
      while i < |mapList| && !found
        invariant 0 <= i <= |mapList| == |original| && locations == old(locations)
        invariant !found ==> mapList == original && notices == old(notices)
        invariant !found ==> forall j :: 0 <= j < i ==> original[j].userId != record.userId
        invariant found ==>
          0 < i && FirstOfUser(original, record.userId) == Some(i - 1) &&
          mapList == original[i - 1 := record] && notices == old(notices) + [Deleted(original[i - 1])]
        invariant found ==> !(listening && !Bridgeable(original[i - 1]))
      {
        if mapList[i].userId == record.userId {
          if listening && !Bridgeable(mapList[i]) {
            // notifyDeletion throws before mapList.set
            assert FirstOfUser(original, record.userId) == Some(i);
            return true;
          }
          notices := notices + [Deleted(mapList[i])];
          mapList := mapList[i := record];
          found := true;
        }
        i := i + 1;
      }
      if !found {
        assert FirstOfUser(original, record.userId).None?;
        mapList := mapList + [record];
      }
      locations := locations[mapId := mapList];
      UpdatedIndex(original, record);
      assert notices == old(notices) + Replaced(original, record.userId);
      if listening && !Bridgeable(record) {
        // notifyAddition throws after the list was updated
        return true;
      }
      notices := notices + [Added(record)];
      escaped := false;
    }

    /** makeResponse: the map's name and then its records, added one at a time. */
    method MakeResponse(mapId: MapId) returns (reply: Reply)
      requires mapId in locations
      ensures reply == ResponseReply(directory, locations, mapId)
    {
      var response := MakeLocationResponse(mapId, if mapId in directory.names then Some(directory.names[mapId]) else None);
      if response.Fail? {
        return NullReply;
      }
      var message := response.value;
      var records := locations[mapId];
      for i := 0 to |records|
        invariant message == LocationResponse(mapId, directory.names[mapId], records[..i])
      {
        message := AddLocationRecord(message, records[i]);
        assert records[..i + 1] == records[..i] + [records[i]];
      }
      assert records[..|records|] == records;
      reply := Send(message);
    }

    /** The switch on the decoded message shared by both servers. */
    method Respond(m: Message) returns (reply: Reply)
      modifies this`locations, this`notices
      ensures var step := Answer(old(locations), directory, listening, m);
        locations == step.locations && notices == old(notices) + step.notices && reply == step.reply
    {
      if m.mapId !in locations {
        reply := ErrorReply(m.mapId, "No such map: " + NatToDecimal(m.mapId));
      } else if m.NewLocation? {
        if m.location.userId in directory.users {
          var escaped := UpdateMap(m.mapId, m.location);
          if escaped {
            return Escaped;
          }
          reply := MakeResponse(m.mapId);
        } else {
          reply := ErrorReply(m.mapId, "No such user: " + IntToDecimal(m.location.userId));
        }
      } else if m.LocationRequest? {
        reply := MakeResponse(m.mapId);
      } else {
        reply := ErrorReply(m.mapId, "Unexpected message type: " + OperationName(m));
      }
    }

    /**
     * AddATudeAIOHandler.handleMessage: decodes one frame, answers it and
     * returns the encoded reply; None is an exception escaping it: the
     * NullPointerException of a null reply, or one from updateMap.
     */
    method HandleMessage(frame: seq<byte>) returns (reply: Option<seq<byte>>)
      modifies this`locations, this`notices
      ensures var step := Handled(old(locations), directory, listening, MessageFrom(frame).result);
        locations == step.locations && notices == old(notices) + step.notices && reply == ReplyBytes(step.reply)
    {
      var input := new MessageInput(frame);
      assert input.Remaining() == frame;
      var decoded := Decode(input);
      var answer := Choose(decoded);
      reply := EncodeReply(answer);
    }

    /** The catch clauses and the switch: the reply to the outcome of decode. */
    method Choose(decoded: Result<Message>) returns (answer: Reply)
      modifies this`locations, this`notices
      ensures var step := Handled(old(locations), directory, listening, decoded);
        locations == step.locations && notices == old(notices) + step.notices && answer == step.reply
    {
      if decoded.Fail? {
        answer := FailureReply(decoded.failure);
      } else {
        answer := Respond(decoded.value);
      }
    }

    /** encode into a fresh byte array; a null reply throws before anything is written. */
    static method EncodeReply(answer: Reply) returns (bytes: Option<seq<byte>>)
      ensures bytes == ReplyBytes(answer)
    {
      if !answer.Send? {
        return None;
      }
      var output := new MessageOutput(false);
      var _ := Encode(answer.message, output);
      assert output.written == Ascii(MessageText(answer.message));
      bytes := Some(output.written);
    }

    /** ClientHandler's purge helper: true when purging met the end of input or a failing read. */
    static method PurgeInput(input: MessageInput) returns (done: bool)
      requires input.Valid()
      modifies input`pos
      ensures input.Valid()
      ensures var p := PurgeToEoln(old(input.Remaining()));
        done == p.result.Fail? && input.Remaining() == p.rest
    {
      var r := input.Purge();
      done := r.Fail?;
    }

    /**
     * One pass of handleClient's loop up to the encode: decode, then the
     * catch clauses with their purge, or the switch. stop is the break on
     * EOFException.
     */
    method ServeOne(input: MessageInput) returns (stop: bool, done: bool, answer: Reply)
      requires input.Valid()
      modifies this`locations, this`notices, input`pos
      ensures input.Valid()
      ensures var p := ClientPass(old(locations), directory, listening, old(input.Remaining()));
        stop == p.Stop? &&
        (!stop ==>
          p.step.locations == locations && old(notices) + p.step.notices == notices &&
          p.step.reply == answer && p.done == done && p.rest == input.Remaining())
      ensures stop ==> locations == old(locations) && notices == old(notices)
    {
      var decoded := Decode(input);
      stop := decoded.Fail? && decoded.failure == Eof;
      done := false;
      answer := NullReply;
      if stop {
        return;
      }
      answer := Choose(decoded);
      if decoded.Fail? {
        if decoded.failure == Parse(true) {
          done := true;
        } else {
          done := PurgeInput(input);
        }
      }
    }

    /**
     * ClientHandler.handleClient: decodes and answers messages until end of
     * input, a timeout or a failed purge; crashed is an uncaught exception
     * (encode of a null reply, or one from updateMap), which leaves the loop
     * without closing the socket.
     */
    method HandleClient(input: MessageInput, output: MessageOutput) returns (crashed: bool)
      requires input.Valid()
      modifies this`locations, this`notices, input`pos, output`written
      ensures var e := Session(old(locations), directory, listening, output.broken, old(notices), old(output.written),
                               old(input.Remaining()));
        locations == e.locations && notices == e.notices && output.written == e.written && crashed == e.crashed
    {
      ghost var goal := Session(locations, directory, listening, output.broken, notices, output.written, input.Remaining());
      var done := false;
      crashed := false;
      while !done
        invariant input.Valid()
        invariant !done ==> Session(locations, directory, listening, output.broken, notices, output.written, input.Remaining()) == goal
        invariant done ==> Ending(locations, notices, output.written, crashed) == goal
        decreases if done then 0 else |input.Remaining()| + 1
      {
        var stop, answer;
        stop, done, answer := ServeOne(input);
        if stop {
          done := true;
        } else {
          if !answer.Send? {
            return true;
          }
          var _ := Encode(answer.message, output);
        }
      }
    }
  }
}
