/**
 * AddATude messages: `ADDATUDEv1 <mapId> <operation> <payload>\r\n`, with the
 * four operations NEW, ALL, ERROR and RESPONSE. decode reads the version,
 * the map id, the operation and its payload, then the two terminator bytes;
 * encode writes the same text.
 */
module TextMessage {
  import opened JavaLang
  import opened TextInput
  import opened TextOutput
  import opened TextRecord

  const VERSION: string := "ADDATUDEv1"
  const EOLN: string := "\r\n"
  const NEW_OPERATION: string := "NEW"
  const ERROR_OPERATION: string := "ERROR"
  const REQUEST_OPERATION: string := "ALL"
  const RESPONSE_OPERATION: string := "RESPONSE"

  /** A map id that setMapId accepts. */
  type MapId = x: int32 | 0 <= x

  /** The four message classes; every message carries a map id. */
  datatype Message =
    | NewLocation(mapId: MapId, location: LocationRecord)
    | LocationRequest(mapId: MapId)
    | Error(mapId: MapId, errorMessage: string)
    | LocationResponse(mapId: MapId, mapName: string, records: seq<LocationRecord>)

  /** getOperation. */
  function OperationName(m: Message): (op: string)
    ensures IsOperation(op)
  {
    match m
    case NewLocation(_, _) => NEW_OPERATION
    case LocationRequest(_) => REQUEST_OPERATION
    case Error(_, _) => ERROR_OPERATION
    case LocationResponse(_, _, _) => RESPONSE_OPERATION
  }

  predicate IsOperation(op: string) {
    op == NEW_OPERATION || op == REQUEST_OPERATION || op == ERROR_OPERATION || op == RESPONSE_OPERATION
  }

  // ---------------------------------------------------------------------
  // Constructors and setters (None stands for a null argument)

  /** setMapId: a negative id is an AddATudeException. */
  function SetMapId(m: Message, mapId: int32): (res: Result<Message>)
    ensures res.Ok? <==> 0 <= mapId
    ensures res.Ok? ==> res.value.mapId == mapId && res.value == m.(mapId := res.value.mapId)
    ensures res.Fail? ==> res.failure == Parse(false)
  {
    if mapId < 0 then Fail(Parse(false)) else Ok(m.(mapId := mapId))
  }

  /** AddATudeNewLocation(mapId, location). */
  function MakeNewLocation(mapId: int32, location: Option<LocationRecord>): (res: Result<Message>)
    ensures res.Ok? <==> 0 <= mapId && location.Some?
    ensures res.Ok? ==> res.value == NewLocation(mapId, location.value)
  {
    if mapId < 0 || location.None? then Fail(Parse(false)) else Ok(NewLocation(mapId, location.value))
  }

  /** setLocationRecord: null is rejected. */
  function SetLocationRecord(m: Message, location: Option<LocationRecord>): (res: Result<Message>)
    requires m.NewLocation?
    ensures res.Ok? <==> location.Some?
    ensures res.Ok? ==> res.value == NewLocation(m.mapId, location.value)
  {
    if location.None? then Fail(Parse(false)) else Ok(m.(location := location.value))
  }

  /** AddATudeLocationRequest(mapId). */
  function MakeLocationRequest(mapId: int32): (res: Result<Message>)
    ensures res.Ok? <==> 0 <= mapId
    ensures res.Ok? ==> res.value == LocationRequest(mapId)
  {
    if mapId < 0 then Fail(Parse(false)) else Ok(LocationRequest(mapId))
  }

  /** AddATudeError(mapId, errorMessage). */
  function MakeError(mapId: int32, errorMessage: Option<string>): (res: Result<Message>)
    ensures res.Ok? <==> 0 <= mapId && errorMessage.Some?
    ensures res.Ok? ==> res.value == Error(mapId, errorMessage.value)
  {
    if mapId < 0 || errorMessage.None? then Fail(Parse(false)) else Ok(Error(mapId, errorMessage.value))
  }

  /** setErrorMessage: null is rejected. */
  function SetErrorMessage(m: Message, errorMessage: Option<string>): (res: Result<Message>)
    requires m.Error?
    ensures res.Ok? <==> errorMessage.Some?
    ensures res.Ok? ==> res.value == Error(m.mapId, errorMessage.value)
  {
    if errorMessage.None? then Fail(Parse(false)) else Ok(m.(errorMessage := errorMessage.value))
  }

  /** AddATudeLocationResponse(mapId, mapName): a response with no records yet. */
  function MakeLocationResponse(mapId: int32, mapName: Option<string>): (res: Result<Message>)
    ensures res.Ok? <==> 0 <= mapId && mapName.Some?
    ensures res.Ok? ==> res.value == LocationResponse(mapId, mapName.value, [])
  {
    if mapId < 0 || mapName.None? then Fail(Parse(false)) else Ok(LocationResponse(mapId, mapName.value, []))
  }

  /** setMapName: null is rejected. */
  function SetMapName(m: Message, mapName: Option<string>): (res: Result<Message>)
    requires m.LocationResponse?
    ensures res.Ok? <==> mapName.Some?
    ensures res.Ok? ==> res.value == LocationResponse(m.mapId, mapName.value, m.records)
  {
    if mapName.None? then Fail(Parse(false)) else Ok(m.(mapName := mapName.value))
  }

  /** addLocationRecord: appends at the end and changes nothing else. */
  function AddLocationRecord(m: Message, location: LocationRecord): (res: Message)
    requires m.LocationResponse?
    ensures res.LocationResponse? && res.mapId == m.mapId && res.mapName == m.mapName
    ensures |res.records| == |m.records| + 1
    ensures res.records[..|m.records|] == m.records && res.records[|m.records|] == location
  {
    m.(records := m.records + [location])
  }

  // ---------------------------------------------------------------------
  // Encoding

  /** The concatenated texts of the records, in list order, with no separators. */
  function RecordsText(rs: seq<LocationRecord>): string {
    if rs == [] then "" else RecordText(rs[0]) + RecordsText(rs[1..])
  }

  /** The text a response writes before its records. */
  function ResponseHeader(mapName: string, size: nat): string {
    LengthText(mapName) + " " + mapName + NatToDecimal(size) + " "
  }

  /** What encodeOperation writes after the operation name and its space. */
  function PayloadText(m: Message): string {
    match m
    case NewLocation(_, location) => RecordText(location)
    case LocationRequest(_) => ""
    case Error(_, errorMessage) => LengthText(errorMessage) + " " + errorMessage
    case LocationResponse(_, mapName, records) => ResponseHeader(mapName, |records|) + RecordsText(records)
  }

  /** encodeOperation: the operation, a space, the payload. */
  function OperationText(m: Message): string {
    OperationName(m) + " " + PayloadText(m)
  }

  /** The first write of encode: version and map id, each followed by a space. */
  function HeaderText(mapId: MapId): string {
    VERSION + " " + NatToDecimal(mapId) + " "
  }

  /** encode: header, operation with its payload, terminator. */
  function MessageText(m: Message): string {
    HeaderText(m.mapId) + OperationText(m) + EOLN
  }

  lemma {:induction false} RecordsTextSnoc(rs: seq<LocationRecord>, i: nat)
    requires i < |rs|
    ensures RecordsText(rs[..i + 1]) == RecordsText(rs[..i]) + RecordText(rs[i])
    decreases i
  {
    if i == 0 {
      assert rs[..1] == [rs[0]] && [rs[0]][1..] == [];
    } else {
      var t := rs[1..];
      assert rs[..i + 1][1..] == t[..i] && rs[..i][1..] == t[..i - 1];
      RecordsTextSnoc(t, i - 1);
      assert t[i - 1] == rs[i];
    }
  }

  /** The records of a response, one write each, in list order. */
  method EncodeRecords(records: seq<LocationRecord>, out: MessageOutput) returns (r: Result<()>)
    modifies out`written
    ensures !out.broken ==> r == Ok(()) && out.written == old(out.written) + Ascii(RecordsText(records))
    ensures out.broken ==> r == Fail(Parse(true)) && out.written == old(out.written)
  {
    if out.broken {
      return Fail(Parse(true));
    }
    ghost var start := out.written;
    for i := 0 to |records|
      invariant out.written == start + Ascii(RecordsText(records[..i]))
    {
      ghost var done := RecordsText(records[..i]);
      var w := EncodeRecord(records[i], out);
      assert out.written == start + Ascii(done) + Ascii(RecordText(records[i]));
      WritesConcatenate(start, done, RecordText(records[i]));
      RecordsTextSnoc(records, i);
    }
    assert records[..|records|] == records;
    r := Ok(());
  }

  /** encodeOperation: one write of the operation and its header, then, for a response, one write per record. */
  method EncodeOperation(m: Message, out: MessageOutput) returns (r: Result<()>)
    modifies out`written
    ensures !out.broken ==> r == Ok(()) && out.written == old(out.written) + Ascii(OperationText(m))
    ensures out.broken ==> r == Fail(Parse(true)) && out.written == old(out.written)
  {
    var head := OperationName(m) + " ";
    ghost var start := out.written;
    match m
    case NewLocation(_, location) =>
      r := out.Write(head);
      if r.Fail? { return; }
      r := EncodeRecord(location, out);
      WritesConcatenate(start, head, RecordText(location));
    case LocationRequest(_) =>
      r := out.Write(head);
      assert OperationText(m) == head + "";
    case Error(_, errorMessage) =>
      r := out.Write(head + PayloadText(m));
    case LocationResponse(_, mapName, records) =>
      var header := ResponseHeader(mapName, |records|);
      r := out.Write(head + header);
      if r.Fail? { return; }
      r := EncodeRecords(records, out);
      WritesConcatenate(start, head + header, RecordsText(records));
      Assoc(head, header, RecordsText(records));
  }

  /** encode(out): the three writes of AddATudeMessage.encode. */
  method Encode(m: Message, out: MessageOutput) returns (r: Result<()>)
    modifies out`written
    ensures !out.broken ==> r == Ok(()) && out.written == old(out.written) + Ascii(MessageText(m))
    ensures out.broken ==> r == Fail(Parse(true)) && out.written == old(out.written)
  {
    if out.broken {
      r := out.Write(HeaderText(m.mapId));
      return;
    }
    ghost var w0 := out.written;
    var head := HeaderText(m.mapId);
    ghost var body := OperationText(m);
    r := out.Write(head);
    assert out.written == w0 + Ascii(head);
    r := EncodeOperation(m, out);
    assert out.written == w0 + Ascii(head) + Ascii(body);
    WritesConcatenate(w0, head, body);
    r := out.Write(EOLN);
    WritesConcatenate(w0, head + body, EOLN);
    assert out.written == w0 + Ascii(head + body + EOLN);
  }

  // ---------------------------------------------------------------------
  // Decoding

  /** The records of a response: n more records to read, those read so far in acc. */
  function RecordsFrom(s: seq<Item>, n: nat, acc: seq<LocationRecord>): Parsed<seq<LocationRecord>>
    decreases n
  {
    if n == 0 then Parsed(Ok(acc), s)
    else
      var p := RecordFrom(s);
      if p.result.Fail? then Failed(p)
      else RecordsFrom(p.rest, n - 1, acc + [p.result.value])
  }

  /** The loop `for (int i = 0; i < size; ++i)` runs no times for a negative size. */
  function LoopCount(size: int32): nat {
    if size < 0 then 0 else size
  }

  /** The stream constructor of NEW: one record. */
  function NewFrom(s: seq<Item>): Parsed<Message> {
    var p := RecordFrom(s);
    if p.result.Fail? then Failed(p) else Parsed(Ok(NewLocation(0, p.result.value)), p.rest)
  }

  /** The stream constructor of ERROR: a length, then that many characters. */
  function ErrorFrom(s: seq<Item>): Parsed<Message> {
    var len := UnsignedInt(s);
    if len.result.Fail? then Failed(len) else
    var text := Fixed(len.rest, len.result.value);
    if text.result.Fail? then Failed(text) else Parsed(Ok(Error(0, text.result.value)), text.rest)
  }

  /** The stream constructor of RESPONSE: the map name, a count, then that many records. */
  function ResponseFrom(s: seq<Item>): Parsed<Message> {
    var len := UnsignedInt(s);
    if len.result.Fail? then Failed(len) else
    var name := Fixed(len.rest, len.result.value);
    if name.result.Fail? then Failed(name) else
    var size := UnsignedInt(name.rest);
    if size.result.Fail? then Failed(size) else
    var records := RecordsFrom(size.rest, LoopCount(size.result.value), []);
    if records.result.Fail? then Failed(records) else
    Parsed(Ok(LocationResponse(0, name.result.value, records.result.value)), records.rest)
  }

  /**
   * The stream constructors of the four operations, chosen by the operation
   * token. The message is built before setMapId runs, so its map id is
   * still the field's default, 0.
   */
  function PayloadFrom(operation: string, s: seq<Item>): Parsed<Message>
    requires IsOperation(operation)
  {
    if operation == NEW_OPERATION then NewFrom(s)
    else if operation == REQUEST_OPERATION then Parsed(Ok(LocationRequest(0)), s)
    else if operation == ERROR_OPERATION then ErrorFrom(s)
    else ResponseFrom(s)
  }

  /** The four operation names are distinct, so each token picks one constructor. */
  lemma OperationsDistinct()
    ensures NEW_OPERATION != REQUEST_OPERATION && NEW_OPERATION != ERROR_OPERATION && NEW_OPERATION != RESPONSE_OPERATION
    ensures REQUEST_OPERATION != ERROR_OPERATION && REQUEST_OPERATION != RESPONSE_OPERATION
    ensures ERROR_OPERATION != RESPONSE_OPERATION
  {
    assert NEW_OPERATION[0] != REQUEST_OPERATION[0];
    assert |ERROR_OPERATION| == 5 && |RESPONSE_OPERATION| == 8 && |NEW_OPERATION| == 3;
  }

  /**
   * The terminator: two reads cast to char must give "\r\n". Anything else,
   * end of input included, is an EOFException; a failing read is an
   * AddATudeException without a cause.
   */
  function EolnFrom(s: seq<Item>): Parsed<()> {
    if s == [] then Parsed(Fail(Eof), [])
    else if s[0] == IO_FAULT then Parsed(Fail(Parse(false)), s[1..])
    else if |s| == 1 then Parsed(Fail(Eof), [])
    else if s[1] == IO_FAULT then Parsed(Fail(Parse(false)), s[2..])
    else if s[0] == CR as int && s[1] == LF as int then Parsed(Ok(()), s[2..])
    else Parsed(Fail(Eof), s[2..])
  }

  /** AddATudeMessage.decode. */
  function MessageFrom(s: seq<Item>): Parsed<Message> {
    var version := Token(s);
    if version.result.Fail? then Failed(version)
    else if version.result.value != VERSION then
      Parsed(Fail(Version("Unexpected version: " + version.result.value)), version.rest)
    else
      var mapId := UnsignedInt(version.rest);
      if mapId.result.Fail? then Failed(mapId) else
      var operation := Token(mapId.rest);
      if operation.result.Fail? then Failed(operation)
      else if !IsOperation(operation.result.value) then
        Parsed(Fail(Operation(mapId.result.value, "Unknown operation: " + operation.result.value)), operation.rest)
      else
        var payload := PayloadFrom(operation.result.value, operation.rest);
        if payload.result.Fail? then Failed(payload)
        else if mapId.result.value < 0 then Parsed(Fail(Parse(false)), payload.rest)
        else
          var eoln := EolnFrom(payload.rest);
          if eoln.result.Fail? then Failed(eoln)
          else Parsed(Ok(payload.result.value.(mapId := mapId.result.value)), eoln.rest)
  }

  /** One turn of the response constructor's loop: read a record and count it, or fail with what stopped the read. */
  method ReadNextRecord(inp: MessageInput, left: nat, acc: seq<LocationRecord>,
                        ghost goal: Parsed<seq<LocationRecord>>)
    returns (r: Result<LocationRecord>, left': nat, acc': seq<LocationRecord>)
    requires inp.Valid() && 0 < left && RecordsFrom(inp.Remaining(), left, acc) == goal
    modifies inp`pos
    ensures inp.Valid()
    ensures r.Fail? ==> goal == Parsed(Fail(r.failure), inp.Remaining())
    ensures r.Ok? ==> left' == left - 1 && acc' == acc + [r.value]
    ensures r.Ok? ==> RecordsFrom(inp.Remaining(), left', acc') == goal
  {
    ghost var before := inp.Remaining();
    r := ReadRecord(inp);
    left', acc' := left - 1, if r.Ok? then acc + [r.value] else acc;
    RecordsFromNext(before, left, acc, goal, r, inp.Remaining(), left', acc');
  }

  method ReadRecords(inp: MessageInput, size: int32) returns (r: Result<seq<LocationRecord>>)
    requires inp.Valid()
    modifies inp`pos
    ensures inp.Valid() && Parsed(r, inp.Remaining()) == RecordsFrom(old(inp.Remaining()), LoopCount(size), [])
  {
    var left := LoopCount(size);
    var acc := [];
    ghost var goal := RecordsFrom(inp.Remaining(), left, acc);
    while left > 0
      invariant inp.Valid() && RecordsFrom(inp.Remaining(), left, acc) == goal
    {
      var record;
      record, left, acc := ReadNextRecord(inp, left, acc, goal);
      if record.Fail? {
        return Fail(record.failure);
      }
    }
    RecordsFromDone(inp.Remaining(), acc, goal);
    r := Ok(acc);
  }

  method ReadPayload(operation: string, inp: MessageInput) returns (r: Result<Message>)
    requires IsOperation(operation) && inp.Valid()
    modifies inp`pos
    ensures inp.Valid() && Parsed(r, inp.Remaining()) == PayloadFrom(operation, old(inp.Remaining()))
  {
    if operation == NEW_OPERATION {
      var location := ReadRecord(inp);
      if location.Fail? { return Fail(location.failure); }
      r := Ok(NewLocation(0, location.value));
    } else if operation == REQUEST_OPERATION {
      r := Ok(LocationRequest(0));
    } else if operation == ERROR_OPERATION {
      var length := inp.ReadUnsignedInt();
      if length.Fail? { return Fail(length.failure); }
      var text := inp.ReadFixedString(length.value);
      if text.Fail? { return Fail(text.failure); }
      r := Ok(Error(0, text.value));
    } else {
      var length := inp.ReadUnsignedInt();
      if length.Fail? { return Fail(length.failure); }
      var name := inp.ReadFixedString(length.value);
      if name.Fail? { return Fail(name.failure); }
      var size := inp.ReadUnsignedInt();
      if size.Fail? { return Fail(size.failure); }
      var records := ReadRecords(inp, size.value);
      if records.Fail? { return Fail(records.failure); }
      r := Ok(LocationResponse(0, name.value, records.value));
    }
  }

  method ReadEoln(inp: MessageInput) returns (r: Result<()>)
    requires inp.Valid()
    modifies inp`pos
    ensures inp.Valid() && Parsed(r, inp.Remaining()) == EolnFrom(old(inp.Remaining()))
  {
    var first := inp.Read();
    if first == IO_FAULT {
      return Fail(Parse(false));
    }
    var second := inp.Read();
    if second == IO_FAULT {
      return Fail(Parse(false));
    }
    if first == CR as int && second == LF as int {
      return Ok(());
    }
    r := Fail(Eof);
  }

  /** decode(in): reads one message and leaves the input just after its terminator. */
  method Decode(inp: MessageInput) returns (r: Result<Message>)
    requires inp.Valid()
    modifies inp`pos
    ensures inp.Valid() && Parsed(r, inp.Remaining()) == MessageFrom(old(inp.Remaining()))
  {
    var version := inp.ReadString();
    if version.Fail? { return Fail(version.failure); }
    if version.value != VERSION {
      return Fail(Version("Unexpected version: " + version.value));
    }
    var mapId := inp.ReadUnsignedInt();
    if mapId.Fail? { return Fail(mapId.failure); }
    var operation := inp.ReadString();
    if operation.Fail? { return Fail(operation.failure); }
    if !IsOperation(operation.value) {
      return Fail(Operation(mapId.value, "Unknown operation: " + operation.value));
    }
    var payload := ReadPayload(operation.value, inp);
    if payload.Fail? { return Fail(payload.failure); }
    if mapId.value < 0 {
      return Fail(Parse(false));
    }
    var eoln := ReadEoln(inp);
    if eoln.Fail? { return Fail(eoln.failure); }
    r := Ok(payload.value.(mapId := mapId.value));
  }

  // ---------------------------------------------------------------------
  // Round trip

  /**
   * Messages whose text reads back as the same message: records whose text
   * reads back, and ASCII strings, so that String.length() counts the bytes
   * that readString(length) reads.
   */
  predicate EncodableMessage(m: Message) {
    match m
    case NewLocation(_, location) => Encodable(location)
    case LocationRequest(_) => true
    case Error(_, errorMessage) => IsAscii(errorMessage) && |errorMessage| < TWO31
    case LocationResponse(_, mapName, records) =>
      IsAscii(mapName) && |mapName| < TWO31 && |records| < TWO31 &&
      forall i :: 0 <= i < |records| ==> Encodable(records[i])
  }

  /**
   * One turn of the response constructor's loop, given what reading a record
   * gave: a failure ends the loop with it, a record is appended.
   */
  lemma RecordsFromNext(s: seq<Item>, n: nat, acc: seq<LocationRecord>, goal: Parsed<seq<LocationRecord>>,
                        r: Result<LocationRecord>, rest: seq<Item>, n': nat, acc': seq<LocationRecord>)
    requires 0 < n && RecordsFrom(s, n, acc) == goal && Parsed(r, rest) == RecordFrom(s)
    requires r.Ok? ==> n' == n - 1 && acc' == acc + [r.value]
    ensures r.Fail? ==> goal == Parsed(Fail(r.failure), rest)
    ensures r.Ok? ==> RecordsFrom(rest, n', acc') == goal
  {
    if r.Ok? {
      assert goal == RecordsFrom(rest, n - 1, acc + [r.value]);
    }
  }

  /** The response constructor's loop ends with the records read so far. */
  lemma RecordsFromDone(s: seq<Item>, acc: seq<LocationRecord>, goal: Parsed<seq<LocationRecord>>)
    requires RecordsFrom(s, 0, acc) == goal
    ensures goal == Parsed(Ok(acc), s)
  {
  }

  /** One turn of the response constructor's loop: a record is read and appended. */
  lemma RecordsFromStep(s: seq<Item>, n: nat, acc: seq<LocationRecord>)
    requires 0 < n && RecordFrom(s).result.Ok?
    ensures RecordsFrom(s, n, acc) == RecordsFrom(RecordFrom(s).rest, n - 1, acc + [RecordFrom(s).result.value])
  {
  }

  /** The records of a response read back one after another, in order. */
  lemma {:induction false} RecordsRoundTrip(rs: seq<LocationRecord>, rest: seq<Item>, acc: seq<LocationRecord>)
    requires forall i :: 0 <= i < |rs| ==> Encodable(rs[i])
    ensures RecordsFrom(Ascii(RecordsText(rs)) + rest, |rs|, acc) == Parsed(Ok(acc + rs), rest)
    decreases |rs|
  {
    var s := Ascii(RecordsText(rs)) + rest;
    if rs == [] {
      assert RecordsText(rs) == "";
      assert s == rest;
      assert acc + rs == acc;
    } else {
      var first, others := RecordText(rs[0]), RecordsText(rs[1..]);
      var tail := Ascii(others) + rest;
      assert RecordsText(rs) == first + others;
      AsciiConcat(first, others);
      Assoc(Ascii(first), Ascii(others), rest);
      assert s == Ascii(first) + tail;
      RecordRoundTrip(rs[0], tail);
      var p := RecordFrom(s);
      assert p == Parsed(Ok(rs[0]), tail);
      RecordsFromStep(s, |rs|, acc);
      RecordsRoundTrip(rs[1..], rest, acc + [rs[0]]);
      assert acc + [rs[0]] + rs[1..] == acc + rs;
    }
  }

  /** A length below 2^31 printed in decimal is what readUnsignedInt reads back. */
  lemma SmallDecimal(n: nat)
    requires n < TWO31
    ensures UnsignedToDecimal(n as int32) == NatToDecimal(n)
  {
  }

  /** NEW: the record reads back. */
  lemma NewPayloadRoundTrip(location: LocationRecord, tail: string, rest: seq<Item>)
    requires Encodable(location)
    ensures NewFrom(Ascii(RecordText(location) + tail) + rest) ==
      Parsed(Ok(NewLocation(0, location)), Ascii(tail) + rest)
  {
    AsciiConcat(RecordText(location), tail);
    Assoc(Ascii(RecordText(location)), Ascii(tail), rest);
    RecordRoundTrip(location, Ascii(tail) + rest);
  }

  /** ERROR: the length, then exactly that many characters of message. */
  lemma ErrorPayloadRoundTrip(errorMessage: string, tail: string, rest: seq<Item>)
    requires IsAscii(errorMessage) && |errorMessage| < TWO31
    ensures ErrorFrom(Ascii(LengthText(errorMessage) + " " + errorMessage + tail) + rest) ==
      Parsed(Ok(Error(0, errorMessage)), Ascii(tail) + rest)
  {
    var s := Ascii(LengthText(errorMessage) + " " + errorMessage + tail) + rest;
    Assoc(LengthText(errorMessage) + " ", errorMessage, tail);
    LengthOfText(errorMessage, errorMessage + tail, rest);
    var len := UnsignedInt(s);
    assert len == Parsed(Ok(|errorMessage| as int32), Ascii(errorMessage + tail) + rest);
    FixedOfText(errorMessage, tail, rest);
  }

  /** The response header with its concatenations grouped from the right. */
  lemma ResponseHeaderShape(mapName: string, size: nat, u: string)
    ensures ResponseHeader(mapName, size) + u ==
      LengthText(mapName) + " " + (mapName + (NatToDecimal(size) + " " + u))
  {
    var a, b, c := LengthText(mapName) + " ", mapName, NatToDecimal(size) + " ";
    Assoc(a + b, NatToDecimal(size), " ");
    assert ResponseHeader(mapName, size) == a + b + c;
    Assoc(a + b, c, u);
    Assoc(a, b, c + u);
  }

  /**
   * After the response header, the constructor reads as many records as the
   * header counts; whatever that loop reads is the response's record list.
   */
  lemma ResponseFromHeader(mapName: string, records: seq<LocationRecord>, u: string, rest: seq<Item>, after: seq<Item>)
    requires IsAscii(mapName) && |mapName| < TWO31 && |records| < TWO31
    requires RecordsFrom(Ascii(u) + rest, |records|, []) == Parsed(Ok(records), after)
    ensures ResponseFrom(Ascii(ResponseHeader(mapName, |records|) + u) + rest) ==
      Parsed(Ok(LocationResponse(0, mapName, records)), after)
  {
    var t2 := NatToDecimal(|records|) + " " + u;
    var t1 := mapName + t2;
    ResponseHeaderShape(mapName, |records|, u);
    LengthOfText(mapName, t1, rest);
    var len := UnsignedInt(Ascii(ResponseHeader(mapName, |records|) + u) + rest);
    assert len == Parsed(Ok(|mapName| as int32), Ascii(t1) + rest);
    FixedOfText(mapName, t2, rest);
    var name := Fixed(len.rest, len.result.value);
    assert name == Parsed(Ok(mapName), Ascii(t2) + rest);
    SmallDecimal(|records|);
    UnsignedIntOfText(|records| as int32, u, rest);
  }

  /** The records of a response, followed by more text, read back in order. */
  lemma RecordsOfText(records: seq<LocationRecord>, tail: string, rest: seq<Item>)
    requires forall i :: 0 <= i < |records| ==> Encodable(records[i])
    ensures RecordsFrom(Ascii(RecordsText(records) + tail) + rest, |records|, []) == Parsed(Ok(records), Ascii(tail) + rest)
  {
    AsciiConcat(RecordsText(records), tail);
    Assoc(Ascii(RecordsText(records)), Ascii(tail), rest);
    RecordsRoundTrip(records, Ascii(tail) + rest, []);
    assert [] + records == records;
  }

  /** RESPONSE: the map name, the record count, then the records in order. */
  lemma ResponsePayloadRoundTrip(mapName: string, records: seq<LocationRecord>, tail: string, rest: seq<Item>)
    requires IsAscii(mapName) && |mapName| < TWO31 && |records| < TWO31
    requires forall i :: 0 <= i < |records| ==> Encodable(records[i])
    ensures ResponseFrom(Ascii(ResponseHeader(mapName, |records|) + RecordsText(records) + tail) + rest) ==
      Parsed(Ok(LocationResponse(0, mapName, records)), Ascii(tail) + rest)
  {
    Assoc(ResponseHeader(mapName, |records|), RecordsText(records), tail);
    RecordsOfText(records, tail, rest);
    ResponseFromHeader(mapName, records, RecordsText(records) + tail, rest, Ascii(tail) + rest);
  }

  /** The stream constructor of each operation reads back what encodeOperation wrote after the operation name. */
  lemma PayloadRoundTrip(m: Message, tail: string, rest: seq<Item>)
    requires EncodableMessage(m)
    ensures PayloadFrom(OperationName(m), Ascii(PayloadText(m) + tail) + rest) == Parsed(Ok(m.(mapId := 0)), Ascii(tail) + rest)
  {
    OperationsDistinct();
    match m
    case NewLocation(_, location) =>
      NewPayloadRoundTrip(location, tail, rest);
    case LocationRequest(_) =>
      assert PayloadText(m) + tail == tail;
    case Error(_, errorMessage) =>
      ErrorPayloadRoundTrip(errorMessage, tail, rest);
    case LocationResponse(_, mapName, records) =>
      ResponsePayloadRoundTrip(mapName, records, tail, rest);
  }

  lemma VersionIsToken()
    ensures IsAscii(VERSION) && SpaceFree(VERSION)
  {
    assert forall i :: 0 <= i < |VERSION| ==> VERSION[i] != ' ' && VERSION[i] as int < 128;
  }

  lemma OperationIsToken(op: string)
    requires IsOperation(op)
    ensures IsAscii(op) && SpaceFree(op)
  {
    assert forall i :: 0 <= i < |op| ==> op[i] != ' ' && op[i] as int < 128;
  }

  /** The terminator is read back and nothing after it is touched. */
  lemma EolnOfText(rest: seq<Item>)
    ensures EolnFrom(Ascii(EOLN) + rest) == Parsed(Ok(()), rest)
  {
    assert Ascii(EOLN) == [CR as int, LF as int];
    assert (Ascii(EOLN) + rest)[2..] == rest;
  }

  /** What encode writes, with the map id and the terminator left open. */
  function WireText(mapId: int32, m: Message, tail: string): string {
    VERSION + " " + (UnsignedToDecimal(mapId) + " " + (OperationName(m) + " " + (PayloadText(m) + tail)))
  }

  /** encode's text is the wire text with the message's own map id and the terminator. */
  lemma MessageTextIsWireText(m: Message)
    ensures MessageText(m) == WireText(m.mapId, m, EOLN)
  {
    var a, b, c := VERSION + " ", NatToDecimal(m.mapId) + " ", OperationName(m) + " ";
    var h, o := HeaderText(m.mapId), OperationText(m);
    Assoc(a, NatToDecimal(m.mapId), " ");
    assert h == a + b;
    Assoc(h, o, EOLN);
    Assoc(c, PayloadText(m), EOLN);
    assert o + EOLN == c + (PayloadText(m) + EOLN);
    Assoc(a, b, c + (PayloadText(m) + EOLN));
  }

  /**
   * decode on the wire text of any map id: version, id, operation and payload
   * read back; a negative id is refused by setMapId before the terminator is
   * read; otherwise the outcome is the terminator's.
   */
  lemma WireTextDecodes(mapId: int32, m: Message, tail: string, rest: seq<Item>)
    requires EncodableMessage(m)
    ensures var eoln := EolnFrom(Ascii(tail) + rest);
      MessageFrom(Ascii(WireText(mapId, m, tail)) + rest) ==
        if mapId < 0 then Parsed(Fail(Parse(false)), Ascii(tail) + rest)
        else if eoln.result.Fail? then Failed(eoln)
        else Parsed(Ok(m.(mapId := mapId)), eoln.rest)
  {
    var t3 := PayloadText(m) + tail;
    var t2 := OperationName(m) + " " + t3;
    var t1 := UnsignedToDecimal(mapId) + " " + t2;
    VersionIsToken();
    TokenOfText(VERSION, t1, rest);
    var version := Token(Ascii(WireText(mapId, m, tail)) + rest);
    assert version == Parsed(Ok(VERSION), Ascii(t1) + rest);
    UnsignedIntOfText(mapId, t2, rest);
    var id := UnsignedInt(version.rest);
    assert id == Parsed(Ok(mapId), Ascii(t2) + rest);
    OperationIsToken(OperationName(m));
    TokenOfText(OperationName(m), t3, rest);
    var operation := Token(id.rest);
    assert operation == Parsed(Ok(OperationName(m)), Ascii(t3) + rest);
    PayloadRoundTrip(m, tail, rest);
  }

  /**
   * decode reads back exactly what encode wrote and stops right after the
   * terminator, whatever follows.
   */
  lemma MessageRoundTrip(m: Message, rest: seq<Item>)
    requires EncodableMessage(m)
    ensures MessageFrom(Ascii(MessageText(m)) + rest) == Parsed(Ok(m), rest)
  {
    MessageTextIsWireText(m);
    WireTextDecodes(m.mapId, m, EOLN, rest);
    EolnOfText(rest);
  }

  lemma Decimal345()
    ensures UnsignedToDecimal(345) == "345" && NatToDecimal(345) == "345"
  {
    assert NatToDecimal(3) == "3";
    assert NatToDecimal(34) == "34";
  }

  /** The record of the unit tests reads back from its text. */
  lemma ExampleRecordEncodable()
    ensures Encodable(LocationRecord(1, "1.2", "3.4", "BU", "Baylor"))
  {
    assert IsDecimalNumber("1.2") by {
      assert "1.2"[..1] == "1" && "1.2"[2..] == "2";
    }
    assert IsDecimalNumber("3.4") by {
      assert "3.4"[..1] == "3" && "3.4"[2..] == "4";
    }
    assert Unsigned("1.2") == "1.2" && Unsigned("3.4") == "3.4";
  }

  lemma HeaderExample()
    ensures HeaderText(345) == "ADDATUDEv1 345 "
  {
    Decimal345();
  }

  /**
   * `ADDATUDEv1 345 NEW 1 1.2 3.4 2 BU6 Baylor\r\n` is the encoding of a
   * NEW message for map 345, and decodes back to it.
   */
  lemma NewLocationExample()
    ensures MessageText(NewLocation(345, LocationRecord(1, "1.2", "3.4", "BU", "Baylor"))) ==
      "ADDATUDEv1 345 " + ("NEW " + "1 1.2 3.4 2 BU6 Baylor") + "\r\n"
    ensures MessageFrom(Ascii("ADDATUDEv1 345 " + ("NEW " + "1 1.2 3.4 2 BU6 Baylor") + "\r\n")) ==
      Parsed(Ok(NewLocation(345, LocationRecord(1, "1.2", "3.4", "BU", "Baylor"))), [])
  {
    var m := NewLocation(345, LocationRecord(1, "1.2", "3.4", "BU", "Baylor"));
    HeaderExample();
    RecordTextExample();
    assert OperationText(m) == "NEW " + "1 1.2 3.4 2 BU6 Baylor";
    ExampleRecordEncodable();
    MessageRoundTrip(m, []);
    assert Ascii(MessageText(m)) + [] == Ascii(MessageText(m));
  }

  /** Two messages written back to back are decoded one after the other. */
  lemma BackToBack(m1: Message, m2: Message, rest: seq<Item>)
    requires EncodableMessage(m1) && EncodableMessage(m2)
    ensures var first := MessageFrom(Ascii(MessageText(m1)) + Ascii(MessageText(m2)) + rest);
      first == Parsed(Ok(m1), Ascii(MessageText(m2)) + rest) &&
      MessageFrom(first.rest) == Parsed(Ok(m2), rest)
  {
    Assoc(Ascii(MessageText(m1)), Ascii(MessageText(m2)), rest);
    MessageRoundTrip(m1, Ascii(MessageText(m2)) + rest);
    MessageRoundTrip(m2, rest);
  }

  /**
   * A map id of 2^31 or more reads as a negative int: the payload is read,
   * then setMapId refuses the id and the terminator is left unread.
   */
  lemma NegativeMapIdRefused(mapId: int32, m: Message, rest: seq<Item>)
    requires EncodableMessage(m) && mapId < 0
    ensures MessageFrom(Ascii(WireText(mapId, m, EOLN)) + rest) == Parsed(Fail(Parse(false)), Ascii(EOLN) + rest)
  {
    WireTextDecodes(mapId, m, EOLN, rest);
  }

  /** A message whose terminator is missing ends in an EOFException once its payload is read. */
  lemma UnterminatedMessage(m: Message)
    requires EncodableMessage(m)
    ensures MessageFrom(Ascii(WireText(m.mapId, m, ""))) == Parsed(Fail(Eof), [])
  {
    WireTextDecodes(m.mapId, m, "", []);
    assert Ascii("") + [] == [];
    assert Ascii(WireText(m.mapId, m, "")) + [] == Ascii(WireText(m.mapId, m, ""));
  }

  /** Any two characters other than CR LF after the payload are an EOFException, not a parse error. */
  lemma WrongTerminator(m: Message, c1: char, c2: char, rest: seq<Item>)
    requires EncodableMessage(m) && c1 as int < 128 && c2 as int < 128 && [c1, c2] != EOLN
    ensures MessageFrom(Ascii(WireText(m.mapId, m, [c1, c2])) + rest) == Parsed(Fail(Eof), rest)
  {
    WireTextDecodes(m.mapId, m, [c1, c2], rest);
    var s := Ascii([c1, c2]) + rest;
    assert s[0] == c1 as int && s[1] == c2 as int && s[2..] == rest;
    assert c1 != '\r' || c2 != '\n';
  }

  /** A first token other than the version is an AddATudeVersionException naming it. */
  lemma WrongVersion(version: string, u: string, rest: seq<Item>)
    requires IsAscii(version) && SpaceFree(version) && version != VERSION
    ensures MessageFrom(Ascii(version + " " + u) + rest) ==
      Parsed(Fail(Version("Unexpected version: " + version)), Ascii(u) + rest)
  {
    TokenOfText(version, u, rest);
  }

  /**
   * An operation token that is none of the four is an
   * AddATudeOperationException carrying the map id as read, negative or not.
   */
  lemma UnknownOperation(mapId: int32, operation: string, u: string, rest: seq<Item>)
    requires IsAscii(operation) && SpaceFree(operation) && !IsOperation(operation)
    ensures MessageFrom(Ascii(VERSION + " " + (UnsignedToDecimal(mapId) + " " + (operation + " " + u))) + rest) ==
      Parsed(Fail(Operation(mapId, "Unknown operation: " + operation)), Ascii(u) + rest)
  {
    var t2 := operation + " " + u;
    var t1 := UnsignedToDecimal(mapId) + " " + t2;
    VersionIsToken();
    TokenOfText(VERSION, t1, rest);
    var version := Token(Ascii(VERSION + " " + t1) + rest);
    assert version == Parsed(Ok(VERSION), Ascii(t1) + rest);
    UnsignedIntOfText(mapId, t2, rest);
    TokenOfText(operation, u, rest);
  }

  /**
   * The terminator check succeeds exactly on CR LF; it fails with an
   * AddATudeException only when one of its two reads fails, and otherwise
   * with an EOFException.
   */
  lemma EolnOutcomes(s: seq<Item>)
    ensures EolnFrom(s).result.Ok? <==> 2 <= |s| && s[0] == CR as int && s[1] == LF as int
    ensures EolnFrom(s).result == Fail(Parse(false)) <==>
      (0 < |s| && s[0] == IO_FAULT) || (1 < |s| && s[1] == IO_FAULT)
    ensures EolnFrom(s).result.Fail? ==> EolnFrom(s).result.failure in {Eof, Parse(false)}
  {
  }

  /**
   * readString(length) does not notice the end of the input: an ERROR
   * message cut inside its text reads the missing characters as '\uFFFF'.
   */
  lemma ErrorTextCutShort(errorMessage: string, k: nat)
    requires IsAscii(errorMessage) && |errorMessage| < TWO31 && k < |errorMessage|
    ensures ErrorFrom(Ascii(LengthText(errorMessage) + " " + errorMessage[..k])) ==
      Parsed(Ok(Error(0, errorMessage[..k] + seq(|errorMessage| - k, _ => EOF_CHAR))), [])
  {
    var cut := errorMessage[..k];
    LengthOfText(errorMessage, cut, []);
    var len := UnsignedInt(Ascii(LengthText(errorMessage) + " " + cut));
    assert Ascii(LengthText(errorMessage) + " " + cut) + [] == Ascii(LengthText(errorMessage) + " " + cut);
    assert len.rest == Ascii(cut) + [];
    assert len.result.value == |errorMessage| as int32;
    assert ToUnsigned(|errorMessage| as int32) == |errorMessage|;
    FixedFromBytes(Ascii(cut), [], |errorMessage|, "");
    assert IsAscii(cut) by {
      forall i | 0 <= i < |cut| ensures cut[i] as int < 128 {
        assert cut[i] == errorMessage[i];
      }
    }
    AsciiLatin1(cut);
    var pad := seq(|errorMessage| - k, _ => EOF_CHAR);
    assert "" + Latin1(Ascii(cut)) + pad == cut + pad;
    var text := Fixed(len.rest, len.result.value);
    assert text == Parsed(Ok(cut + pad), []);
  }

  /** equals of the four message classes. */
  predicate MessageEquals(a: Message, b: Message) {
    match (a, b)
    case (NewLocation(i, x), NewLocation(j, y)) => i == j && RecordEquals(x, y)
    case (LocationRequest(_), LocationRequest(_)) => true
    case (Error(_, x), Error(_, y)) => x == y
    case (LocationResponse(i, x, _), LocationResponse(j, y, _)) => i == j && x == y
    case _ => false
  }

  /** What equals looks at: a request's map id, an error's map id and a response's records are ignored. */
  function EqualityKey(m: Message): Message {
    match m
    case NewLocation(_, _) => m
    case LocationRequest(_) => LocationRequest(0)
    case Error(_, errorMessage) => Error(0, errorMessage)
    case LocationResponse(mapId, mapName, _) => LocationResponse(mapId, mapName, [])
  }

  /** equals holds exactly when the two messages agree on what equals looks at. */
  lemma MessageEqualsByKey(a: Message, b: Message)
    ensures MessageEquals(a, b) <==> EqualityKey(a) == EqualityKey(b)
  {
    if a.NewLocation? && b.NewLocation? {
      RecordEqualsIsEquality(a.location, b.location);
    }
  }

  /** Hence equals is an equivalence, and two responses that differ only in their records are equal. */
  lemma ResponsesIgnoreRecords(mapId: MapId, mapName: string, xs: seq<LocationRecord>, ys: seq<LocationRecord>)
    ensures MessageEquals(LocationResponse(mapId, mapName, xs), LocationResponse(mapId, mapName, ys))
  {
  }

  // ---------------------------------------------------------------------
  // Progress

  lemma {:induction false} RecordsFromProgress(s: seq<Item>, n: nat, acc: seq<LocationRecord>)
    ensures |RecordsFrom(s, n, acc).rest| <= |s|
    decreases n
  {
    if n > 0 {
      RecordFromProgress(s);
      var p := RecordFrom(s);
      if p.result.Ok? {
        RecordsFromProgress(p.rest, n - 1, acc + [p.result.value]);
      }
    }
  }

  lemma PayloadProgress(operation: string, s: seq<Item>)
    requires IsOperation(operation)
    ensures |PayloadFrom(operation, s).rest| <= |s|
  {
    if operation == NEW_OPERATION {
      RecordFromProgress(s);
    } else if operation == ERROR_OPERATION || operation == RESPONSE_OPERATION {
      var len := UnsignedInt(s);
      UnsignedIntProgress(s);
      if len.result.Ok? {
        var text := Fixed(len.rest, len.result.value);
        FixedProgress(len.rest, len.result.value);
        if text.result.Ok? && operation == RESPONSE_OPERATION {
          var size := UnsignedInt(text.rest);
          UnsignedIntProgress(text.rest);
          if size.result.Ok? {
            RecordsFromProgress(size.rest, LoopCount(size.result.value), []);
          }
        }
      }
    }
  }

  /** decode never gives input back, and on input that is not empty it consumes at least one byte. */
  lemma MessageProgress(s: seq<Item>)
    ensures |MessageFrom(s).rest| <= |s|
    ensures s != [] ==> |MessageFrom(s).rest| < |s|
  {
    TokenFromProgress(s, "");
    var version := Token(s);
    if version.result.Ok? && version.result.value == VERSION {
      var mapId := UnsignedInt(version.rest);
      UnsignedIntProgress(version.rest);
      if mapId.result.Ok? {
        var operation := Token(mapId.rest);
        TokenFromProgress(mapId.rest, "");
        if operation.result.Ok? && IsOperation(operation.result.value) {
          PayloadProgress(operation.result.value, operation.rest);
        }
      }
    }
  }
}
