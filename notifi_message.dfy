/**
 * NoTiFi messages: a two-byte header (version 3 in the high nibble and the
 * message code in the low nibble of the first byte, then the message id)
 * followed by a payload that depends on the code. One message fills one
 * UDP datagram.
 */
module NoTiFiMessage {
  import opened JavaLang
  import opened NoTiFiRecord

  const VERSION: nat := 3

  const REGISTER: nat := 0
  const ADDITION: nat := 1
  const DELETION: nat := 2
  const DEREGISTER: nat := 3
  const ERROR: nat := 4
  const ACK: nat := 5

  type MsgId = x: int | 0 <= x < 0x100

  type Port = x: int | 0 <= x < 0x1_0000

  /** An Inet4Address: its four address bytes, most significant first. */
  type Octets = s: seq<byte> | |s| == 4 witness [0, 0, 0, 0]

  datatype Message =
    | Register(msgId: MsgId, address: Octets, port: Port)
    | Addition(msgId: MsgId, record: LocationRecord)
    | Deletion(msgId: MsgId, record: LocationRecord)
    | Deregister(msgId: MsgId, address: Octets, port: Port)
    | Error(msgId: MsgId, errorMessage: string)
    | Ack(msgId: MsgId)

  /** getCode(). */
  function Code(m: Message): nat {
    match m
    case Register(_, _, _) => REGISTER
    case Addition(_, _) => ADDITION
    case Deletion(_, _) => DELETION
    case Deregister(_, _, _) => DEREGISTER
    case Error(_, _) => ERROR
    case Ack(_) => ACK
  }

  /** What the setters guarantee of every message they let through. */
  predicate Valid(m: Message) {
    (m.Addition? || m.Deletion?) ==> NoTiFiRecord.Valid(m.record)
  }

  predicate IsLineBreak(b: byte) {
    b == 10 || b == 13
  }

  /** A message whose encoding reads back as itself: ASCII strings, and an error text on one line. */
  predicate Encodable(m: Message) {
    match m
    case Addition(_, r) => NoTiFiRecord.Encodable(r)
    case Deletion(_, r) => NoTiFiRecord.Encodable(r)
    case Error(_, text) => IsAscii(text) && forall i :: 0 <= i < |text| ==> text[i] != '\n' && text[i] != '\r'
    case _ => true
  }

  // ---------------------------------------------------------------------
  // Setters and value constructors

  /** setMsgId: the value must fit in the low 8 bits of an int. */
  function SetMsgId(m: Message, msgId: int32): (res: Outcome<Message>)
    ensures res.Success? <==> 0 <= msgId < 0x100
    ensures res.Success? ==> res.value == m.(msgId := msgId)
  {
    if HighBitsSet(msgId, 0x100) then Failure(Illegal("Message ID is over 1 byte."))
    else Success(m.(msgId := msgId))
  }

  /** setAddress of Register and Deregister: null is refused. */
  function SetAddress(m: Message, address: Option<Octets>): (res: Outcome<Message>)
    requires m.Register? || m.Deregister?
    ensures res.Success? <==> address.Some?
    ensures res.Success? ==> res.value == m.(address := address.value)
  {
    if address.None? then Failure(Illegal("Null address in setter."))
    else Success(m.(address := address.value))
  }

  /** setPort of Register and Deregister: the value must fit in the low 16 bits of an int. */
  function SetPort(m: Message, port: int32): (res: Outcome<Message>)
    requires m.Register? || m.Deregister?
    ensures res.Success? <==> 0 <= port < 0x1_0000
    ensures res.Success? ==> res.value == m.(port := port)
  {
    if HighBitsSet(port, 0x1_0000) then Failure(Illegal("Port larger than 2 bytes in setter."))
    else Success(m.(port := port))
  }

  /** setLocation of Addition and Deletion: null is refused. */
  function SetLocation(m: Message, record: Option<LocationRecord>): (res: Outcome<Message>)
    requires m.Addition? || m.Deletion?
    ensures res.Success? <==> record.Some?
    ensures res.Success? ==> res.value == m.(record := record.value)
  {
    if record.None? then Failure(Illegal("Null location record in setter."))
    else Success(m.(record := record.value))
  }

  /** setErrorMessage: null is refused; any other text, of any length, is kept. */
  function SetErrorMessage(m: Message, errorMessage: Option<string>): (res: Outcome<Message>)
    requires m.Error?
    ensures res.Success? <==> errorMessage.Some?
    ensures res.Success? ==> res.value == m.(errorMessage := errorMessage.value)
  {
    if errorMessage.None? then Failure(Illegal("Null error message in setter."))
    else Success(m.(errorMessage := errorMessage.value))
  }

  /** The value constructors of Register (code 0) and Deregister (code 3): setMsgId, setAddress, setPort. */
  function NewEndpointMessage(code: nat, msgId: int32, address: Option<Octets>, port: int32): (res: Outcome<Message>)
    requires code == REGISTER || code == DEREGISTER
    ensures res.Success? <==> 0 <= msgId < 0x100 && address.Some? && 0 <= port < 0x1_0000
    ensures res.Success? ==>
      Code(res.value) == code && res.value.msgId == msgId && res.value.address == address.value && res.value.port == port
  {
    var m := if code == REGISTER then Register(0, [0, 0, 0, 0], 0) else Deregister(0, [0, 0, 0, 0], 0);
    var r1 := SetMsgId(m, msgId);
    if r1.Failure? then r1 else
    var r2 := SetAddress(r1.value, address);
    if r2.Failure? then r2 else
    SetPort(r2.value, port)
  }

  /** The value constructors of Addition (code 1) and Deletion (code 2): setMsgId, setLocation. */
  function NewLocationMessage(code: nat, msgId: int32, record: Option<LocationRecord>): (res: Outcome<Message>)
    requires code == ADDITION || code == DELETION
    ensures res.Success? <==> 0 <= msgId < 0x100 && record.Some?
    ensures res.Success? ==> Code(res.value) == code && res.value.msgId == msgId && res.value.record == record.value
  {
    var m := if code == ADDITION then Addition(0, LocationRecord(0, 0, 0, "", "")) else Deletion(0, LocationRecord(0, 0, 0, "", ""));
    var r1 := SetMsgId(m, msgId);
    if r1.Failure? then r1 else
    SetLocation(r1.value, record)
  }

  /** The value constructor of Error: setMsgId, setErrorMessage. */
  function NewError(msgId: int32, errorMessage: Option<string>): (res: Outcome<Message>)
    ensures res.Success? <==> 0 <= msgId < 0x100 && errorMessage.Some?
    ensures res.Success? ==> res.value == Error(msgId, errorMessage.value)
  {
    var r1 := SetMsgId(Error(0, ""), msgId);
    if r1.Failure? then r1 else
    SetErrorMessage(r1.value, errorMessage)
  }

  /** The value constructor of ACK: setMsgId. */
  function NewAck(msgId: int32): (res: Outcome<Message>)
    ensures res.Success? <==> 0 <= msgId < 0x100
    ensures res.Success? ==> res.value == Ack(msgId)
  {
    SetMsgId(Ack(0), msgId)
  }

  // ---------------------------------------------------------------------
  // Encoding

  /** NoTiFiMessage.encode(): (VERSION << 4) | code, then the message id. */
  function HeaderBytes(m: Message): (bs: seq<byte>)
    ensures |bs| == 2
  {
    [VERSION * 16 + Code(m), m.msgId]
  }

  /** The address bytes in reverse order, then the port least significant byte first. */
  function EndpointBytes(address: Octets, port: Port): (bs: seq<byte>)
    ensures |bs| == 6
  {
    Reverse(address) + [port % 256, port / 256]
  }

  function PayloadBytes(m: Message): seq<byte> {
    match m
    case Register(_, address, port) => EndpointBytes(address, port)
    case Addition(_, r) => RecordBytes(r)
    case Deletion(_, r) => RecordBytes(r)
    case Deregister(_, address, port) => EndpointBytes(address, port)
    case Error(_, text) => Ascii(text)
    case Ack(_) => []
  }

  /** encode() of each message class: the header, then the payload. */
  function Encode(m: Message): seq<byte> {
    HeaderBytes(m) + PayloadBytes(m)
  }

  /** encode() of Register and Deregister, with its loop that reverses the address bytes. */
  method EncodeEndpoint(m: Message) returns (pkt: seq<byte>)
    requires m.Register? || m.Deregister?
    ensures pkt == Encode(m)
  {
    var inetaddr := m.address;
    var addressArray := new byte[|inetaddr|];
    for i := 0 to |inetaddr|
      invariant forall j :: 0 <= j < i ==> addressArray[j] == inetaddr[|inetaddr| - (j + 1)]
    {
      addressArray[i] := inetaddr[|inetaddr| - (i + 1)];
    }
    var portArray := [m.port % 256, m.port / 256];
    pkt := HeaderBytes(m) + addressArray[..] + portArray;
    assert addressArray[..] == Reverse(inetaddr);
  }

  // ---------------------------------------------------------------------
  // Decoding

  /**
   * The NoTiFiMessage stream constructor for a class with the given code:
   * two readUnsignedByte (an EOFException when the packet is shorter), then
   * the code and version checks, then setMsgId, which every unsigned byte passes.
   */
  function HeaderFrom(code: nat, bs: seq<byte>): (r: Reading<MsgId>)
    ensures r.Got? <==> |bs| >= 2 && bs[0] % 16 == code && bs[0] / 16 == VERSION
    ensures r.Got? ==> r.value == bs[1] && r.rest == bs[2..]
  {
    if |bs| < 2 then Threw(IOError(""))
    else if bs[0] % 16 != code then Threw(Illegal("Wrong code."))
    else if (bs[0] / 16) % 16 != VERSION then Threw(Illegal("Wrong version."))
    else Got(bs[1], bs[2..])
  }

  /**
   * readInt then Integer.reverseBytes for the address, so that the four
   * address bytes are the wire bytes in reverse order; readUnsignedShort,
   * reversed and shifted, for the port, which is therefore sent least
   * significant byte first.
   */
  function EndpointFrom(bs: seq<byte>): (r: Reading<(Octets, Port)>)
    ensures r.Got? <==> |bs| >= 6
    ensures r.Got? ==> r.rest == bs[6..]
  {
    if |bs| < 4 then Threw(IOError(""))
    else if |bs| < 6 then Threw(IOError(""))
    else
      var port: Port := bs[4] as int + 256 * bs[5] as int;
      Got((Reverse(bs[..4]), port), bs[6..])
  }

  /** The number of bytes before the first CR or LF. */
  function LineLength(bs: seq<byte>): (n: nat)
    ensures n <= |bs|
    ensures forall i :: 0 <= i < n ==> !IsLineBreak(bs[i])
    ensures n < |bs| ==> IsLineBreak(bs[n])
  {
    if bs == [] || IsLineBreak(bs[0]) then 0 else 1 + LineLength(bs[1..])
  }

  /**
   * BufferedReader.readLine over the rest of the datagram: the characters
   * before the first line break (none at all gives null, which becomes "").
   * The reader buffers the whole remainder, so nothing is left over.
   */
  function LineFrom(bs: seq<byte>): (r: Reading<string>)
    ensures r.Got? && r.rest == []
  {
    Got(Latin1(bs[..LineLength(bs)]), [])
  }

  /** The stream constructor of the class with the given code. */
  function MessageFrom(code: nat, bs: seq<byte>): (r: Reading<Message>)
    requires code <= ACK
    ensures r.Got? ==> Code(r.value) == code && Valid(r.value)
  {
    match HeaderFrom(code, bs)
    case Threw(f) => Threw(f)
    case Got(msgId, body) =>
      if code == REGISTER || code == DEREGISTER then
        match EndpointFrom(body)
        case Threw(f) => Threw(f)
        case Got(e, rest) =>
          Got(if code == REGISTER then Register(msgId, e.0, e.1) else Deregister(msgId, e.0, e.1), rest)
      else if code == ADDITION || code == DELETION then
        match RecordFrom(body)
        case Threw(f) => Threw(f)
        case Got(r, rest) => Got(if code == ADDITION then Addition(msgId, r) else Deletion(msgId, r), rest)
      else if code == ERROR then
        Got(Error(msgId, LineFrom(body).value), [])
      else
        Got(Ack(msgId), body)
  }

  /**
   * NoTiFiMessage.decode: an empty packet is an IOException; the low nibble
   * of the first byte picks the class, an unknown one is an
   * IllegalArgumentException; bytes the class does not read are an IOException.
   */
  function Decode(pkt: seq<byte>): (r: Outcome<Message>)
    ensures pkt == [] ==> r == Failure(IOError("Byte array contains no data"))
    ensures pkt != [] && pkt[0] % 16 > ACK ==> r == Failure(Illegal("Unexpected code: " + NatToDecimal(pkt[0] % 16)))
    ensures r.Success? ==>
      |pkt| >= 2 && pkt[0] / 16 == VERSION && Code(r.value) == pkt[0] % 16 && r.value.msgId == pkt[1] && Valid(r.value)
  {
    if pkt == [] then Failure(IOError("Byte array contains no data"))
    else
      var code := pkt[0] % 16;
      if code > ACK then Failure(Illegal("Unexpected code: " + NatToDecimal(code)))
      else
        match MessageFrom(code, pkt)
        case Threw(f) => Failure(f)
        case Got(m, rest) =>
          if rest != [] then Failure(IOError("More data than necessary.")) else Success(m)
  }

  // ---------------------------------------------------------------------
  // Round trips

  /** The message with each record's doubles as doubleToLongBits reports them. */
  function Canonicalized(m: Message): Message {
    if m.Addition? || m.Deletion? then m.(record := NoTiFiRecord.Canonicalized(m.record)) else m
  }

  lemma HeaderRoundTrip(m: Message, rest: seq<byte>)
    ensures HeaderFrom(Code(m), HeaderBytes(m) + rest) == Got(m.msgId, rest)
  {
    assert (HeaderBytes(m) + rest)[2..] == rest;
  }

  lemma EndpointRoundTrip(address: Octets, port: Port, rest: seq<byte>)
    ensures EndpointFrom(EndpointBytes(address, port) + rest) == Got((address, port), rest)
  {
    var bs := EndpointBytes(address, port) + rest;
    assert bs[..4] == Reverse(address);
    ReverseReverse(address);
    assert bs[6..] == rest;
  }

  lemma LineRoundTrip(text: string)
    requires Encodable(Error(0, text))
    ensures LineFrom(Ascii(text)) == Got(text, [])
  {
    var bs := Ascii(text);
    assert forall i :: 0 <= i < |bs| ==> !IsLineBreak(bs[i]);
    assert LineLength(bs) == |bs|;
    assert bs[..|bs|] == bs;
    AsciiLatin1(text);
  }

  /** Decoding what encode produced gives the message back, its doubles canonical. */
  lemma DecodeEncode(m: Message)
    requires Valid(m) && Encodable(m)
    ensures Decode(Encode(m)) == Success(Canonicalized(m))
  {
    if m.Register? || m.Deregister? {
      EndpointDecodeEncode(m);
    } else if m.Addition? || m.Deletion? {
      RecordDecodeEncode(m);
    } else if m.Error? {
      ErrorDecodeEncode(m);
    } else {
      HeaderRoundTrip(m, []);
    }
  }

  lemma EndpointDecodeEncode(m: Message)
    requires m.Register? || m.Deregister?
    ensures Decode(Encode(m)) == Success(m)
  {
    var payload := PayloadBytes(m);
    HeaderRoundTrip(m, payload);
    EndpointRoundTrip(m.address, m.port, []);
    assert payload + [] == payload;
  }

  lemma RecordDecodeEncode(m: Message)
    requires (m.Addition? || m.Deletion?) && Valid(m) && Encodable(m)
    ensures Decode(Encode(m)) == Success(Canonicalized(m))
  {
    RecordMessageFrom(m);
    assert Encode(m)[0] % 16 == Code(m);
  }

  /** The Addition and Deletion stream constructors read back an encoded record message. */
  lemma RecordMessageFrom(m: Message)
    requires (m.Addition? || m.Deletion?) && Valid(m) && Encodable(m)
    ensures MessageFrom(Code(m), Encode(m)) == Got(Canonicalized(m), [])
  {
    var payload := PayloadBytes(m);
    assert payload == RecordBytes(m.record) + [];
    RecordRoundTrip(m.record, []);
    RecordBodyRead(m, payload);
  }

  /** A header followed by bytes that hold exactly one record reads back as a record message. */
  lemma RecordBodyRead(m: Message, body: seq<byte>)
    requires m.Addition? || m.Deletion?
    requires RecordFrom(body) == Got(NoTiFiRecord.Canonicalized(m.record), [])
    ensures MessageFrom(Code(m), HeaderBytes(m) + body) == Got(Canonicalized(m), [])
  {
    HeaderRoundTrip(m, body);
  }

  lemma ErrorDecodeEncode(m: Message)
    requires m.Error? && Encodable(m)
    ensures Decode(Encode(m)) == Success(m)
  {
    HeaderRoundTrip(m, PayloadBytes(m));
    LineRoundTrip(m.errorMessage);
  }

  /** A packet that decodes to a message without NaN payloads, non-ASCII text or a second line is exactly that message's encoding. */
  lemma EncodeDecode(pkt: seq<byte>)
    requires Decode(pkt).Success?
    requires var m := Decode(pkt).value;
      Encodable(m) && ((m.Addition? || m.Deletion?) ==> !IsNaN(m.record.longitude) && !IsNaN(m.record.latitude))
    requires Decode(pkt).value.Error? ==> LineLength(pkt[2..]) == |pkt| - 2
    ensures Encode(Decode(pkt).value) == pkt
  {
    var m := Decode(pkt).value;
    if m.Register? || m.Deregister? {
      EndpointEncodeDecode(pkt);
    } else if m.Addition? || m.Deletion? {
      RecordEncodeDecode(pkt);
    } else if m.Error? {
      ErrorEncodeDecode(pkt);
    } else {
      DecodedHeader(pkt);
    }
  }

  lemma EndpointEncodeDecode(pkt: seq<byte>)
    requires Decode(pkt).Success? && (Decode(pkt).value.Register? || Decode(pkt).value.Deregister?)
    ensures Encode(Decode(pkt).value) == pkt
  {
    var m := Decode(pkt).value;
    var body := pkt[2..];
    DecodedHeader(pkt);
    EndpointBytesOf(body);
  }

  lemma RecordEncodeDecode(pkt: seq<byte>)
    requires Decode(pkt).Success? && (Decode(pkt).value.Addition? || Decode(pkt).value.Deletion?)
    requires Encodable(Decode(pkt).value)
    requires !IsNaN(Decode(pkt).value.record.longitude) && !IsNaN(Decode(pkt).value.record.latitude)
    ensures Encode(Decode(pkt).value) == pkt
  {
    var m := Decode(pkt).value;
    var body := pkt[2..];
    DecodedHeader(pkt);
    DecodedRecord(pkt);
    NoTiFiRecord.EncodeOfDecode(body);
    assert PayloadBytes(m) == body;
  }

  /** The first two bytes of a packet that decodes are the encoded header of what it decodes to. */
  lemma DecodedHeader(pkt: seq<byte>)
    requires Decode(pkt).Success?
    ensures pkt == HeaderBytes(Decode(pkt).value) + pkt[2..]
  {
    var m := Decode(pkt).value;
    NibbleSplit(pkt[0]);
    assert pkt[0] == VERSION * 16 + Code(m);
  }

  /** A byte is its high nibble times 16 plus its low nibble. */
  lemma NibbleSplit(b: byte)
    ensures b == b / 16 * 16 + b % 16
  {
  }

  /** A decoded Addition or Deletion is the record read from the whole body. */
  lemma DecodedRecord(pkt: seq<byte>)
    requires Decode(pkt).Success? && (Decode(pkt).value.Addition? || Decode(pkt).value.Deletion?)
    ensures RecordFrom(pkt[2..]) == Got(Decode(pkt).value.record, [])
  {
  }

  lemma ErrorEncodeDecode(pkt: seq<byte>)
    requires Decode(pkt).Success? && Decode(pkt).value.Error? && Encodable(Decode(pkt).value)
    requires LineLength(pkt[2..]) == |pkt| - 2
    ensures Encode(Decode(pkt).value) == pkt
  {
    var m := Decode(pkt).value;
    var body := pkt[2..];
    DecodedHeader(pkt);
    assert body[..LineLength(body)] == body;
    AsciiOfLatin1(body);
  }

  lemma EndpointBytesOf(bs: seq<byte>)
    requires EndpointFrom(bs).Got? && EndpointFrom(bs).rest == []
    ensures EndpointBytes(EndpointFrom(bs).value.0, EndpointFrom(bs).value.1) == bs
  {
    ReverseReverse(bs[..4]);
    assert bs == bs[..4] + [bs[4], bs[5]];
  }

  /** Every message decode builds would also pass the setters of its value constructor. */
  lemma DecodedPassesSetters(pkt: seq<byte>)
    requires Decode(pkt).Success?
    ensures var m := Decode(pkt).value;
      match m
      case Register(id, address, port) => NewEndpointMessage(REGISTER, id, Some(address), port) == Success(m)
      case Deregister(id, address, port) => NewEndpointMessage(DEREGISTER, id, Some(address), port) == Success(m)
      case Addition(id, r) => NewLocationMessage(ADDITION, id, Some(r)) == Success(m)
      case Deletion(id, r) => NewLocationMessage(DELETION, id, Some(r)) == Success(m)
      case Error(id, text) => NewError(id, Some(text)) == Success(m)
      case Ack(id) => NewAck(id) == Success(m)
  {
  }

  // ---------------------------------------------------------------------
  // Refusals

  /** A packet with a known code but a single byte runs out before the version is looked at. */
  lemma ShortHeaderRefused(b: byte)
    requires b % 16 <= ACK
    ensures Decode([b]) == Failure(IOError(""))
  {
  }

  /** A header whose high nibble is not 3 is refused once both header bytes are read. */
  lemma WrongVersionRefused(pkt: seq<byte>)
    requires |pkt| >= 2 && pkt[0] % 16 <= ACK && pkt[0] / 16 != VERSION
    ensures Decode(pkt) == Failure(Illegal("Wrong version."))
  {
  }

  /** Bytes after a complete ACK are refused. */
  lemma TrailingBytesRefused(m: Message, extra: seq<byte>)
    requires m.Ack? && extra != []
    ensures Decode(Encode(m) + extra) == Failure(IOError("More data than necessary."))
  {
    HeaderRoundTrip(m, extra);
  }

  /** A truncated encoding of any message other than an error or an ACK is an IOException. */
  lemma TruncatedRefused(m: Message, n: nat)
    requires Valid(m) && Encodable(m) && !m.Error? && !m.Ack?
    requires 2 <= n < |Encode(m)|
    ensures Decode(Encode(m)[..n]).Failure? && Decode(Encode(m)[..n]).fault.IOError?
  {
    var pkt := Encode(m)[..n];
    TruncatedBodyRefused(m, n);
    assert pkt[0] % 16 == Code(m);
  }

  /** A prefix of a packet that keeps its two-byte header is the header and a prefix of the payload. */
  lemma HeaderPrefix(header: seq<byte>, payload: seq<byte>, n: nat)
    requires |header| == 2 <= n <= 2 + |payload|
    ensures (header + payload)[..n] == header + payload[..n - 2]
  {
  }

  /** The class's stream constructor throws an IOException on a truncated encoding. */
  lemma TruncatedBodyRefused(m: Message, n: nat)
    requires Valid(m) && Encodable(m) && !m.Error? && !m.Ack?
    requires 2 <= n < |Encode(m)|
    ensures MessageFrom(Code(m), Encode(m)[..n]).Threw? && MessageFrom(Code(m), Encode(m)[..n]).fault.IOError?
  {
    var body := PayloadBytes(m)[..n - 2];
    HeaderPrefix(HeaderBytes(m), PayloadBytes(m), n);
    HeaderRoundTrip(m, body);
    if m.Addition? || m.Deletion? {
      TruncatedRecordRefused(m.record, body);
    } else {
      assert |body| < 6;
    }
  }

  lemma TruncatedRecordRefused(r: LocationRecord, bs: seq<byte>)
    requires NoTiFiRecord.Encodable(r) && |bs| < |RecordBytes(r)| && bs == RecordBytes(r)[..|bs|]
    ensures RecordFrom(bs).Threw? && RecordFrom(bs).fault.IOError?
  {
    var more := RecordBytes(r)[|bs|..];
    assert bs + more == RecordBytes(r);
    RecordFaultsAreIO(bs);
    TruncatedRecordNotRead(r, bs, more);
  }

  /** Reading a record only ever fails by running out of bytes. */
  lemma RecordFaultsAreIO(bs: seq<byte>)
    ensures RecordFrom(bs).Threw? ==> RecordFrom(bs).fault.IOError?
  {
  }

  /** Bytes that a complete record's encoding extends are not a record. */
  lemma TruncatedRecordNotRead(r: LocationRecord, bs: seq<byte>, more: seq<byte>)
    requires NoTiFiRecord.Encodable(r) && more != [] && bs + more == RecordBytes(r)
    ensures RecordFrom(bs).Threw?
  {
    RecordRoundTrip(r, []);
    assert RecordBytes(r) + [] == bs + more;
    if RecordFrom(bs).Got? {
      RecordPrefix(bs, more);
    }
  }

  // ---------------------------------------------------------------------
  // Equality

  /** The part of equals each class adds to the header comparison, for two messages of one class. */
  predicate PayloadEquals(a: Message, b: Message)
    requires Code(a) == Code(b)
  {
    match a
    case Register(_, address, port) => address == b.address && port == b.port
    case Addition(_, r) => RecordEquals(r, b.record)
    case Deletion(_, r) => RecordEquals(r, b.record)
    case Deregister(_, address, port) => address == b.address && port == b.port
    case Error(_, text) => text == b.errorMessage
    case Ack(_) => true
  }

  /**
   * equals as the classes have it: NoTiFiMessage compares message id and
   * code, and NoTiFiLocationAddition then compares its record with itself.
   */
  predicate EqualsAsWritten(a: Message, b: Message) {
    a.msgId == b.msgId && Code(a) == Code(b)
    && (if a.Addition? then RecordEquals(a.record, a.record) else PayloadEquals(a, b))
  }

  /** equals as intended: the header, then the payload of the class. */
  predicate MessageEquals(a: Message, b: Message) {
    a.msgId == b.msgId && Code(a) == Code(b) && PayloadEquals(a, b)
  }

  /** As written, two additions are equal whenever their message ids are, whatever their records. */
  lemma AdditionEqualsIgnoresRecord(a: Message, b: Message)
    requires a.Addition? && b.Addition?
    ensures EqualsAsWritten(a, b) <==> a.msgId == b.msgId
  {
  }

  /** Two additions of different users' records that the written equals calls equal. */
  lemma AdditionEqualsCounterexample()
    ensures var a := Addition(1, LocationRecord(1, 0, 0, "", ""));
      var b := Addition(1, LocationRecord(2, 0, 0, "", ""));
      EqualsAsWritten(a, b) && !MessageEquals(a, b)
  {
  }

  /** Outside additions the written and the intended equals agree. */
  lemma EqualsAsWrittenElsewhere(a: Message, b: Message)
    requires !a.Addition?
    ensures EqualsAsWritten(a, b) <==> MessageEquals(a, b)
  {
  }

  /** The intended equals is equality up to NaN payloads. */
  lemma MessageEqualsIsCanonicalEquality(a: Message, b: Message)
    ensures MessageEquals(a, b) <==> Canonicalized(a) == Canonicalized(b)
  {
    if (a.Addition? || a.Deletion?) && Code(a) == Code(b) {
      var ra, rb := a.record, b.record;
      assert NoTiFiRecord.Canonicalized(ra) == NoTiFiRecord.Canonicalized(rb) <==> RecordEquals(ra, rb) by {
        CanonicalIdempotent(ra.longitude);
        CanonicalIdempotent(ra.latitude);
      }
    }
  }

  lemma EncodeIgnoresCanonicalization(m: Message)
    ensures Encode(Canonicalized(m)) == Encode(m)
  {
    if m.Addition? || m.Deletion? {
      EncodeIgnoresNaNPayload(m.record);
    }
  }

  /** Two encodable messages are equal exactly when their datagrams are. */
  lemma MessageEqualsIffSameBytes(a: Message, b: Message)
    requires Valid(a) && Encodable(a) && Valid(b) && Encodable(b)
    ensures MessageEquals(a, b) <==> Encode(a) == Encode(b)
  {
    MessageEqualsIsCanonicalEquality(a, b);
    EncodeIgnoresCanonicalization(a);
    EncodeIgnoresCanonicalization(b);
    if Encode(a) == Encode(b) {
      DecodeEncode(a);
      DecodeEncode(b);
    }
  }

  // ---------------------------------------------------------------------
  // Datagrams from the unit tests

  /** An ACK is the header alone. */
  lemma AckBytes(id: MsgId)
    ensures Encode(Ack(id)) == [0x35, id]
  {
  }

  lemma AckExample()
    ensures Encode(Ack(15)) == [0x35, 0x0F]
    ensures Decode([0x35, 0x0F]) == Success(Ack(15))
  {
  }

  lemma ErrorExample()
    ensures Encode(Error(15, "Error")) == [0x34, 0x0F, 0x45, 0x72, 0x72, 0x6F, 0x72]
    ensures Decode([0x34, 0x0F, 0x45, 0x72, 0x72, 0x6F, 0x72]) == Success(Error(15, "Error"))
  {
    DecodeEncode(Error(15, "Error"));
  }

  lemma ReverseExample()
    ensures Reverse<byte>([4, 3, 2, 1]) == [1, 2, 3, 4]
  {
    var r := Reverse<byte>([4, 3, 2, 1]);
    assert r[0] == 1 && r[1] == 2;
    assert r[2] == 3 && r[3] == 4;
  }

  /** The address 4.3.2.1 and the port 5000 travel as 01 02 03 04 88 13. */
  lemma EndpointExample()
    ensures EndpointBytes([4, 3, 2, 1], 5000) == [0x01, 0x02, 0x03, 0x04, 0x88, 0x13]
  {
    ReverseExample();
  }

  /** Register and Deregister are the header, the reversed address and the port. */
  lemma EndpointMessageBytes(m: Message)
    requires m.Register? || m.Deregister?
    ensures Encode(m) == [VERSION * 16 + Code(m), m.msgId] + EndpointBytes(m.address, m.port)
  {
  }

  lemma RegisterExample()
    ensures Decode([0x30, 0x00, 0x01, 0x02, 0x03, 0x04, 0x88, 0x13]) == Success(Register(0, [4, 3, 2, 1], 5000))
  {
    RegisterBytes();
    EndpointDecodeEncode(Register(0, [4, 3, 2, 1], 5000));
  }

  lemma RegisterBytes()
    ensures Encode(Register(0, [4, 3, 2, 1], 5000)) == [0x30, 0x00, 0x01, 0x02, 0x03, 0x04, 0x88, 0x13]
  {
    EndpointMessageBytes(Register(0, [4, 3, 2, 1], 5000));
    EndpointExample();
    assert [0x30, 0x00] + [0x01, 0x02, 0x03, 0x04, 0x88, 0x13] == [0x30, 0x00, 0x01, 0x02, 0x03, 0x04, 0x88, 0x13];
  }

  lemma DeregisterExample()
    ensures Decode([0x33, 0x00, 0x01, 0x02, 0x03, 0x04, 0x88, 0x13]) == Success(Deregister(0, [4, 3, 2, 1], 5000))
  {
    DeregisterBytes();
    EndpointDecodeEncode(Deregister(0, [4, 3, 2, 1], 5000));
  }

  lemma DeregisterBytes()
    ensures Encode(Deregister(0, [4, 3, 2, 1], 5000)) == [0x33, 0x00, 0x01, 0x02, 0x03, 0x04, 0x88, 0x13]
  {
    EndpointMessageBytes(Deregister(0, [4, 3, 2, 1], 5000));
    EndpointExample();
    assert [0x33, 0x00] + [0x01, 0x02, 0x03, 0x04, 0x88, 0x13] == [0x33, 0x00, 0x01, 0x02, 0x03, 0x04, 0x88, 0x13];
  }

  lemma UnknownCodeExample()
    ensures Decode([0x36, 0x00]) == Failure(Illegal("Unexpected code: " + "6"))
  {
    assert NatToDecimal(6) == [DigitChar(6)] == "6";
  }

  /** An error datagram keeps only its first line; the rest is read and dropped. */
  lemma ErrorSecondLineDropped()
    ensures Decode([0x34, 0x01, 0x41, 0x0A, 0x42]) == Success(Error(1, "A"))
  {
    var body: seq<byte> := [0x41, 0x0A, 0x42];
    assert LineLength(body) == 1;
    assert body[..1] == [0x41];
    assert Latin1([0x41]) == "A";
    assert LineFrom(body) == Got("A", []);
    var pkt: seq<byte> := [0x34, 0x01] + body;
    assert HeaderFrom(ERROR, pkt) == Got(1, body);
    assert MessageFrom(ERROR, pkt) == Got(Error(1, "A"), []);
  }
}
