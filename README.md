# AddATude and NoTiFi, modelled in Dafny

This project models the core of a Java networking course project with two
protocols.

**AddATude** is a line-oriented text protocol for shared location maps. A
message reads `ADDATUDEv1 <mapId> <operation> <payload>\r\n`. The operations
are NEW (a new location), ALL (ask for a map), ERROR and RESPONSE. Two
servers keep, for each map, the current location of each user:

- a threaded server, whose per-connection loop decodes messages from the
  socket stream and writes the replies back;
- an asynchronous server, whose dispatcher cuts the incoming bytes into
  CR LF terminated frames and queues the replies in a write list.

**NoTiFi** is a binary UDP protocol that tells registered clients about
locations that were added or deleted. A datagram has a two-byte header:
version and code in the first byte, the message id in the second. A payload
follows, depending on the code:

- Register and Deregister carry an IPv4 endpoint;
- Addition and Deletion carry a binary location record;
- Error carries a text;
- ACK carries nothing.

The registration server keeps the registered client endpoints, answers
Register and Deregister with an ACK or an error, and sends every registered
client a notice when a map changes. The client's `expectACK` sends a request
and waits for its ACK with a deadline, and makes one more attempt after a
silent one.

The modules follow the source packages:

| module | file | models |
|---|---|---|
| `JavaLang` | java.dfy | 32-bit int wrap-around, decimal printing, `parseUnsignedInt`, UTF-16 `String.length()`, `getBytes("ASCII")` |
| `TextInput` | text_input.dfy | `MessageInput`, a cursor over the input stream, read byte by byte (class), and what each read means (functions) |
| `TextOutput` | text_output.dfy | `MessageOutput`, an append-only byte sink (class) |
| `TextRecord` | text_record.dfy | the AddATude `LocationRecord`: setters, encode and decode |
| `TextMessage` | text_message.dfy | `AddATudeMessage` and its four operations: decode, encode and their round trips |
| `NoTiFiRecord` | notifi_record.dfy | the NoTiFi `LocationRecord` and the byte orders of `DataInput`/`DataOutput` |
| `NoTiFiMessage` | notifi_message.dfy | the six NoTiFi messages: decode, encode, equality and their round trips |
| `MapServer` | map_server.dfy | the server's tables and replies, `AddATudeAIOHandler.handleMessage` and the threaded `handleClient` loop (class) |
| `FrameAssembler` | frame_assembler.dfy | `AddATudeAIODispatcher`: framing at CR LF, moving the leftover bytes, and pruning the write list (class over arrays) |
| `NoTiFiServer` | notifi_server.dfy | the client list, `handleClients` and the notice loops of `notifyAddition`/`notifyDeletion` (class) |
| `NoTiFiClient` | notifi_client.dfy | `expectACK`, `makeConnection` and `closeConnection` (class) |

Operations that loop or update state are methods of classes. Each is proved
equal to a specification function over values, and the protocol properties
are proved about those functions as lemmas. The round trips, the registry
rules, and the ACK rules of the handshake all live in those lemmas.

## Model

| member | source | states |
|---|---|---|
| JavaLang.Wrap32 | src/myn/addatude/protocol/MessageInput.java:94-98 | the Java int holding an unsigned value below 2^32: non-negative exactly when the value is below 2^31, and congruent to it modulo 2^32 |
| JavaLang.ToUnsigned | src/myn/addatude/protocol/LocationRecord.java:119 | the unsigned reading of an int is below 2^32 and wraps back to the same int |
| JavaLang.UnsignedOfWrap | src/myn/addatude/protocol/LocationRecord.java:119 | reading a wrapped unsigned value back as unsigned gives the value |
| JavaLang.NatToDecimal | src/myn/addatude/protocol/LocationRecord.java:119-122 | decimal text is non-empty, all digits, and has no leading zero |
| JavaLang.IntToDecimal | src/myn/notifi/app/NoTiFiServer.java:285-294 | an int printed in decimal is non-empty and starts with '-' exactly when the int is negative; the rest is digits whose value is the int's magnitude |
| JavaLang.DecimalRoundTrip | src/myn/addatude/protocol/LocationRecord.java:119-122 | the value of a number's decimal text is the number |
| JavaLang.ParseUnsignedInt | src/myn/addatude/protocol/MessageInput.java:94-98 | Integer.parseUnsignedInt accepts exactly an optional '+' and one or more digits worth less than 2^32; the int it returns reads back unsigned as that value, and is negative exactly when the value is 2^31 or more |
| JavaLang.ParseUnsignedDecimal | src/myn/addatude/protocol/LocationRecord.java:119 | Integer.parseUnsignedInt of Integer.toUnsignedString(x) is x, for every int |
| JavaLang.JavaLength | src/myn/addatude/protocol/LocationRecord.java:121-122 | String.length() counts UTF-16 units: between one and two per character |
| JavaLang.AsciiJavaLength | src/myn/addatude/protocol/LocationRecord.java:121-122 | for ASCII text String.length() is the number of characters |
| JavaLang.AsciiByte | src/myn/addatude/protocol/MessageOutput.java:31 | getBytes("ASCII") keeps a character below 128 and turns any other into '?' |
| JavaLang.Ascii | src/myn/addatude/protocol/MessageOutput.java:53 | getBytes("ASCII") gives one byte per character |
| JavaLang.AsciiConcat | src/myn/addatude/protocol/MessageOutput.java:53 | the ASCII encoding of a concatenation is the concatenation of the encodings |
| JavaLang.Latin1 | src/myn/addatude/protocol/MessageInput.java:182 | casting each byte read to char gives one character per byte |
| JavaLang.AsciiLatin1 | src/myn/addatude/protocol/MessageInput.java:182 | ASCII text written with getBytes("ASCII") and read back by casting bytes to char is unchanged |
| JavaLang.Reverse | src/myn/notifi/protocol/NoTiFiDeregister.java:133-137 | reversing puts element i at position length-1-i |
| JavaLang.ReverseReverse | src/myn/notifi/protocol/NoTiFiDeregister.java:67-70 | reversing twice gives the address back |
| TextInput.SignedDoubleChars | src/myn/addatude/protocol/MessageInput.java:156-162 | text that matches the signed-double pattern is ASCII and holds no space |
| TextInput.TokenFromBytes | src/myn/addatude/protocol/MessageInput.java:180-184 | the token loop collects the bytes before the first space as characters and consumes that space |
| TextInput.TokenOfBytes | src/myn/addatude/protocol/MessageInput.java:175-199 | readString() returns the bytes before the first space and leaves what follows it |
| TextInput.TokenFromAtEnd | src/myn/addatude/protocol/MessageInput.java:190-192 | input that ends before any space gives EOFException and is consumed entirely |
| TextInput.UnsignedIntOfBytes | src/myn/addatude/protocol/MessageInput.java:69-101 | readUnsignedInt consumes through the space and returns Integer.parseUnsignedInt of the token, or an AddATudeException when that fails |
| TextInput.UnsignedIntAtEnd | src/myn/addatude/protocol/MessageInput.java:86-88 | readUnsignedInt reaching end of input before a space gives EOFException |
| TextInput.SignedDoubleOfBytes | src/myn/addatude/protocol/MessageInput.java:116-145 | readSignedDouble succeeds exactly when the token matches the pattern, returns it verbatim, and otherwise gives an AddATudeException |
| TextInput.FixedFromBytes | src/myn/addatude/protocol/MessageInput.java:218-221 | readString(length) reads exactly length bytes, padding with (char) -1 past the end of input |
| TextInput.FixedOfAscii | src/myn/addatude/protocol/MessageInput.java:213-228 | readString(|t|) on the ASCII bytes of t returns t |
| TextInput.FixedAtEnd | src/myn/addatude/protocol/MessageInput.java:213-228 | readString(length) at end of input never fails: it returns length (unsigned) copies of (char) -1 |
| TextInput.PurgeFromBytes | src/myn/addatude/protocol/MessageInput.java:248-251 | the purge loop stops right after the first CR LF |
| TextInput.PurgeOfBytes | src/myn/addatude/protocol/MessageInput.java:243-262 | purge("\r\n") discards everything up to and including the first CR LF and keeps the rest |
| TextInput.PurgeFromAtEnd | src/myn/addatude/protocol/MessageInput.java:248-261 | the purge loop on input without CR LF consumes it all and ends in EOFException |
| TextInput.PurgeAtEnd | src/myn/addatude/protocol/MessageInput.java:258-261 | purge on input without CR LF gives EOFException |
| TextInput.TokenOfText | src/myn/addatude/protocol/MessageInput.java:175-199 | readString() on the ASCII encoding of `t u` returns t and leaves the encoding of u |
| TextInput.UnsignedIntOfText | src/myn/addatude/protocol/MessageInput.java:69-101 | readUnsignedInt on Integer.toUnsignedString(x) and a space returns x |
| TextInput.SignedDoubleOfText | src/myn/addatude/protocol/MessageInput.java:116-145 | readSignedDouble on pattern-matching text and a space returns that text |
| TextInput.FixedOfText | src/myn/addatude/protocol/MessageInput.java:213-228 | readString(|t|) on the encoding of t followed by u returns t and leaves u |
| TextInput.TokenFromProgress | src/myn/addatude/protocol/MessageInput.java:180-184 | the token loop never gives input back, and consumes at least one byte of non-empty input |
| TextInput.FixedFromProgress | src/myn/addatude/protocol/MessageInput.java:218-221 | the fixed-length loop never gives input back |
| TextInput.PurgeFromProgress | src/myn/addatude/protocol/MessageInput.java:248-251 | purge never gives input back, and consumes at least one byte of non-empty input |
| TextInput.UnsignedIntProgress | src/myn/addatude/protocol/MessageInput.java:69-101 | readUnsignedInt never gives input back |
| TextInput.SignedDoubleProgress | src/myn/addatude/protocol/MessageInput.java:116-145 | readSignedDouble never gives input back |
| TextInput.FixedProgress | src/myn/addatude/protocol/MessageInput.java:213-228 | readString(length) never gives input back |
| TextInput.MessageInput.constructor | src/myn/addatude/protocol/MessageInput.java:42-44 | a new reader starts at the first byte of the stream |
| TextInput.MessageInput.Read | src/myn/addatude/protocol/MessageInput.java:53-55 | read() returns the next byte and advances by one, or returns -1 at end of input and stays there |
| TextInput.MessageInput.ReadString | src/myn/addatude/protocol/MessageInput.java:175-199 | the byte-by-byte loop returns and consumes what the token specification says |
| TextInput.MessageInput.ReadUnsignedInt | src/myn/addatude/protocol/MessageInput.java:69-101 | the loop and the parse agree with the unsigned-int specification, in result and in input consumed |
| TextInput.MessageInput.ReadSignedDouble | src/myn/addatude/protocol/MessageInput.java:116-145 | the loop and the pattern check agree with the signed-double specification |
| TextInput.MessageInput.ReadFixedString | src/myn/addatude/protocol/MessageInput.java:213-228 | the counted loop, with its unsigned comparison, agrees with the fixed-length specification |
| TextInput.MessageInput.Purge | src/myn/addatude/protocol/MessageInput.java:243-262 | the do-while loop agrees with the purge specification |
| TextOutput.MessageOutput.constructor | src/myn/addatude/protocol/MessageOutput.java:39-41 | a new writer has written nothing |
| TextOutput.MessageOutput.Write | src/myn/addatude/protocol/MessageOutput.java:51-57 | write appends the ASCII bytes of the string, or appends nothing and fails with an AddATudeException caused by the IOException |
| TextOutput.WritesConcatenate | src/myn/addatude/protocol/MessageOutput.java:51-57 | two writes leave the same bytes as one write of the joined text |
| TextRecord.SetUserId | src/myn/addatude/protocol/LocationRecord.java:289-295 | succeeds exactly for a non-negative id and changes only userId |
| TextRecord.SetLongitude | src/myn/addatude/protocol/LocationRecord.java:273-279 | succeeds exactly for non-null text that matches the signed-double pattern and changes only longitude |
| TextRecord.SetLatitudeAsWritten | src/myn/addatude/protocol/LocationRecord.java:222-228 | as written, succeeds exactly when the argument is non-null and the record's current longitude matches the pattern |
| TextRecord.SetLatitude | src/myn/addatude/protocol/LocationRecord.java:222-228 | as intended, succeeds exactly for non-null pattern-matching latitude and changes only latitude |
| TextRecord.SetLocationName | src/myn/addatude/protocol/LocationRecord.java:255-261 | refuses only null and changes only the name |
| TextRecord.SetLocationDescription | src/myn/addatude/protocol/LocationRecord.java:238-245 | refuses only null and changes only the description |
| TextRecord.MakeRecord | src/myn/addatude/protocol/LocationRecord.java:69-78 | the value constructor succeeds exactly when every setter's condition holds, and then holds exactly the arguments |
| TextRecord.MakeRecordAsWritten | src/myn/addatude/protocol/LocationRecord.java:69-78 | as written, the constructor accepts any non-null latitude once the longitude is valid |
| TextRecord.LatitudeNotChecked | src/myn/addatude/protocol/LocationRecord.java:223 | the latitude "north" is accepted by the constructor as written and refused by the intended one |
| TextRecord.LengthText | src/myn/addatude/protocol/LocationRecord.java:121-122 | the length prefix is non-empty decimal text |
| TextRecord.EncodeRecord | src/myn/addatude/protocol/LocationRecord.java:118-124 | encode writes the record's text in one write, with no space between the name and the description's length |
| TextRecord.RecordTextExample | src/myn/addatude/protocol/test/LocationRecordTest.java:270-279 | the record (1, 1.2, 3.4, BU, Baylor) is written as `1 1.2 3.4 2 BU6 Baylor` |
| TextRecord.ReadRecord | src/myn/addatude/protocol/LocationRecord.java:91-107 | the stream constructor's reads agree with the record specification, in result and in input consumed |
| TextRecord.LengthOfText | src/myn/addatude/protocol/LocationRecord.java:102 | the length prefix of ASCII text reads back as its length |
| TextRecord.LengthPrefixedOfText | src/myn/addatude/protocol/LocationRecord.java:102-106 | a length prefix followed by its text reads back as that text |
| TextRecord.RecordRoundTrip | src/myn/addatude/protocol/LocationRecord.java:91-124 | the stream constructor reads back exactly the record encode wrote and stops right after it |
| TextRecord.RecordFromProgress | src/myn/addatude/protocol/LocationRecord.java:91-107 | reading a record never gives input back |
| TextRecord.StreamBypassesSetters | src/myn/addatude/protocol/LocationRecord.java:98 | a record with a negative user id is decoded although setUserId refuses that id |
| TextRecord.RecordEqualsIsEquality | src/myn/addatude/protocol/LocationRecord.java:132-145 | equals, which compares user ids unsigned, holds exactly for records with the same five fields |
| TextMessage.OperationName | src/myn/addatude/protocol/AddATudeLocationResponse.java:118-120 | getOperation of every message class is one of the four operation names |
| TextMessage.SetMapId | src/myn/addatude/protocol/AddATudeMessage.java:185-190 | succeeds exactly for a non-negative id, and changes only the map id |
| TextMessage.MakeNewLocation | src/myn/addatude/protocol/AddATudeNewLocation.java:57-61 | succeeds exactly for a non-negative id and a non-null record, and holds them |
| TextMessage.SetLocationRecord | src/myn/addatude/protocol/AddATudeNewLocation.java:85-92 | refuses only null, and changes only the record |
| TextMessage.MakeLocationRequest | src/myn/addatude/protocol/AddATudeLocationRequest.java:45-47 | succeeds exactly for a non-negative id |
| TextMessage.MakeError | src/myn/addatude/protocol/AddATudeError.java:57-61 | succeeds exactly for a non-negative id and a non-null message, and holds them |
| TextMessage.SetErrorMessage | src/myn/addatude/protocol/AddATudeError.java:103-109 | refuses only null, and changes only the error message |
| TextMessage.MakeLocationResponse | src/myn/addatude/protocol/AddATudeLocationResponse.java:69-73 | succeeds exactly for a non-negative id and a non-null name, with an empty record list |
| TextMessage.SetMapName | src/myn/addatude/protocol/AddATudeLocationResponse.java:140-146 | refuses only null, and keeps the id and the records |
| TextMessage.AddLocationRecord | src/myn/addatude/protocol/AddATudeLocationResponse.java:108-110 | appends the record at the end of the list and changes nothing else |
| TextMessage.EncodeRecords | src/myn/addatude/protocol/AddATudeLocationResponse.java:87-89 | the loop writes every record's text in list order, or nothing once the stream fails |
| TextMessage.EncodeOperation | src/myn/addatude/protocol/AddATudeLocationResponse.java:82-90 | encodeOperation of each class writes the operation name, a space and its payload (NEW: the record; ERROR: length and text; RESPONSE: name, count, records) |
| TextMessage.Encode | src/myn/addatude/protocol/AddATudeMessage.java:139-147 | encode writes `ADDATUDEv1 <mapId> `, the operation text and CR LF, or nothing when the stream fails |
| TextMessage.OperationsDistinct | src/myn/addatude/protocol/AddATudeMessage.java:35-44 | the four operation names differ, so decode's switch picks one constructor per token |
| TextMessage.ReadRecords | src/myn/addatude/protocol/AddATudeLocationResponse.java:51-55 | the constructor's loop reads as many records as the count (none for a negative count) and agrees with the record-list specification |
| TextMessage.ReadNextRecord | src/myn/addatude/protocol/AddATudeLocationResponse.java:51-55 | one turn of the record loop: a record read is counted and appended and the rest of the read is unchanged; a failed read is what the whole response read gives |
| TextMessage.ReadPayload | src/myn/addatude/protocol/AddATudeMessage.java:89-101 | the stream constructor chosen by the operation reads what the payload specification says, leaving map id 0 |
| TextMessage.ReadEoln | src/myn/addatude/protocol/AddATudeMessage.java:112-121 | the two terminator reads agree with the terminator specification |
| TextMessage.Decode | src/myn/addatude/protocol/AddATudeMessage.java:65-125 | decode agrees with the message specification, in result and in input consumed |
| TextMessage.RecordsRoundTrip | src/myn/addatude/protocol/AddATudeLocationResponse.java:51-55 | the records a response wrote read back in order |
| TextMessage.NewPayloadRoundTrip | src/myn/addatude/protocol/AddATudeNewLocation.java:41-44 | a NEW payload reads back as its record |
| TextMessage.ErrorPayloadRoundTrip | src/myn/addatude/protocol/AddATudeError.java:40-44 | an ERROR payload reads back as its message text |
| TextMessage.ResponseFromHeader | src/myn/addatude/protocol/AddATudeLocationResponse.java:46-56 | after the response header the constructor reads exactly the number of records the header counts |
| TextMessage.RecordsOfText | src/myn/addatude/protocol/AddATudeLocationResponse.java:51-55 | records followed by more text read back and leave that text |
| TextMessage.ResponsePayloadRoundTrip | src/myn/addatude/protocol/AddATudeLocationResponse.java:46-56 | a RESPONSE payload reads back as its name and records in order |
| TextMessage.PayloadRoundTrip | src/myn/addatude/protocol/AddATudeMessage.java:89-101 | each stream constructor reads back what its encodeOperation wrote |
| TextMessage.EolnOfText | src/myn/addatude/protocol/AddATudeMessage.java:112-121 | CR LF is accepted and nothing after it is read |
| TextMessage.WireTextDecodes | src/myn/addatude/protocol/AddATudeMessage.java:65-125 | decode of an encoded message with any map id: a negative id is refused by setMapId before the terminator is read, otherwise the terminator decides |
| TextMessage.MessageRoundTrip | src/myn/addatude/protocol/AddATudeMessage.java:65-147 | decode reads back exactly the message encode wrote and stops right after its terminator |
| TextMessage.NewLocationExample | src/myn/addatude/protocol/test/AddATudeNewLocationTest.java:127-143 | `ADDATUDEv1 345 NEW 1 1.2 3.4 2 BU6 Baylor` CR LF is the encoding of that NEW message and decodes back to it |
| TextMessage.BackToBack | src/myn/addatude/protocol/test/AddATudeNewLocationTest.java:156-170 | two messages written back to back decode one after the other |
| TextMessage.NegativeMapIdRefused | src/myn/addatude/protocol/AddATudeMessage.java:78-109 | a map id of 2^31 or more reads as a negative int and is refused by setMapId after the payload |
| TextMessage.UnterminatedMessage | src/myn/addatude/protocol/AddATudeMessage.java:112-121 | a message without its terminator ends in EOFException |
| TextMessage.WrongTerminator | src/myn/addatude/protocol/AddATudeMessage.java:119-121 | two characters other than CR LF are an EOFException |
| TextMessage.WrongVersion | src/myn/addatude/protocol/AddATudeMessage.java:71-75 | a first token other than ADDATUDEv1 is a version exception naming it |
| TextMessage.UnknownOperation | src/myn/addatude/protocol/AddATudeMessage.java:102-105 | an unknown operation token is an operation exception carrying the map id as read |
| TextMessage.EolnOutcomes | src/myn/addatude/protocol/AddATudeMessage.java:112-121 | the terminator check succeeds exactly on CR LF, fails with AddATudeException exactly when a read fails, and is otherwise EOFException |
| TextMessage.ErrorTextCutShort | src/myn/addatude/protocol/MessageInput.java:213-228 | an ERROR message cut inside its text reads the missing characters as (char) -1 instead of failing |
| TextMessage.MessageEqualsByKey | src/myn/addatude/protocol/AddATudeLocationResponse.java:151-160 | equals of the four classes holds exactly when the messages agree on what equals compares: a request's and an error's map id and a response's records are ignored |
| TextMessage.ResponsesIgnoreRecords | src/myn/addatude/protocol/AddATudeLocationResponse.java:151-160 | two responses that differ only in their records are equal |
| TextMessage.RecordsFromProgress | src/myn/addatude/protocol/AddATudeLocationResponse.java:51-55 | the record loop never gives input back |
| TextMessage.PayloadProgress | src/myn/addatude/protocol/AddATudeMessage.java:89-101 | no stream constructor gives input back |
| TextMessage.MessageProgress | src/myn/addatude/protocol/AddATudeMessage.java:65-125 | decode never gives input back and consumes at least one byte of non-empty input |
| NoTiFiRecord.BigEndian | src/myn/notifi/protocol/LocationRecord.java:60 | readUnsignedShort and readLong give a value below 256 to the power of the number of bytes read |
| NoTiFiRecord.ToBigEndian | src/myn/notifi/protocol/LocationRecord.java:123 | writeShort and writeLong write exactly the requested number of bytes |
| NoTiFiRecord.BigEndianOfBytes | src/myn/notifi/protocol/LocationRecord.java:60-63 | reading back what the big-endian writer wrote gives the value |
| NoTiFiRecord.BytesOfBigEndian | src/myn/notifi/protocol/LocationRecord.java:60-63 | writing back what the big-endian reader read gives the bytes |
| NoTiFiRecord.Canonical | src/myn/notifi/protocol/LocationRecord.java:129-130 | doubleToLongBits collapses every NaN to the one canonical NaN and keeps every other pattern |
| NoTiFiRecord.CanonicalIdempotent | src/myn/notifi/protocol/LocationRecord.java:129-130 | canonicalising twice is canonicalising once |
| NoTiFiRecord.ReverseBytesInvolutive | src/myn/notifi/protocol/LocationRecord.java:62-63 | Long.reverseBytes undoes itself |
| NoTiFiRecord.DoubleBytes | src/myn/notifi/protocol/LocationRecord.java:129-130 | a double is written as 8 bytes |
| NoTiFiRecord.DoubleBytesLittleEndian | src/myn/notifi/protocol/LocationRecord.java:129-130 | the 8 bytes of a double hold its canonical pattern least significant byte first |
| NoTiFiRecord.DoubleRoundTrip | src/myn/notifi/protocol/LocationRecord.java:62-63 | reading a written double gives its canonical pattern |
| NoTiFiRecord.DoubleBytesOf | src/myn/notifi/protocol/LocationRecord.java:129-130 | 8 bytes that are not a NaN are written back unchanged |
| NoTiFiRecord.SetUserId | src/myn/notifi/protocol/LocationRecord.java:311-318 | succeeds exactly when the id has no bit outside the low 16, and changes only the id |
| NoTiFiRecord.SetLocationName | src/myn/notifi/protocol/LocationRecord.java:280-290 | succeeds exactly for a non-null name of at most 255 UTF-16 units, changes only the name and keeps the record valid |
| NoTiFiRecord.SetLocationDescription | src/myn/notifi/protocol/LocationRecord.java:259-270 | succeeds exactly for a non-null description of at most 255 UTF-16 units, changes only it and keeps the record valid |
| NoTiFiRecord.MakeRecord | src/myn/notifi/protocol/LocationRecord.java:102-110 | the value constructor succeeds exactly when every setter accepts, and then holds the arguments |
| NoTiFiRecord.StringBytes | src/myn/notifi/protocol/LocationRecord.java:137-138 | a string is written as one length byte and one byte per character |
| NoTiFiRecord.RecordBytes | src/myn/notifi/protocol/LocationRecord.java:121-147 | a record is written as 20 bytes plus one per character of its two strings |
| NoTiFiRecord.UnsignedShortFrom | src/myn/notifi/protocol/LocationRecord.java:60 | readUnsignedShort consumes exactly two bytes |
| NoTiFiRecord.DoubleFrom | src/myn/notifi/protocol/LocationRecord.java:62-63 | reading a double consumes exactly eight bytes |
| NoTiFiRecord.StringFrom | src/myn/notifi/protocol/LocationRecord.java:70-73 | reading a string consumes its length byte and that many bytes, giving at most 255 characters |
| NoTiFiRecord.RecordFrom | src/myn/notifi/protocol/LocationRecord.java:57-84 | the stream constructor yields a valid record and consumes at least 20 bytes |
| NoTiFiRecord.Latin1JavaLength | src/myn/notifi/protocol/LocationRecord.java:73 | a string made from bytes one character each has String.length() equal to the byte count |
| NoTiFiRecord.DecodedPassesSetters | src/myn/notifi/protocol/LocationRecord.java:57-84 | every record the stream constructor builds also passes the setters one by one |
| NoTiFiRecord.UnsignedShortRoundTrip | src/myn/notifi/protocol/LocationRecord.java:60-123 | readUnsignedShort reads back what writeShort wrote |
| NoTiFiRecord.DoubleFromRoundTrip | src/myn/notifi/protocol/LocationRecord.java:62-130 | a double reads back as its canonical pattern |
| NoTiFiRecord.StringRoundTrip | src/myn/notifi/protocol/LocationRecord.java:70-138 | an ASCII string of at most 255 characters reads back unchanged |
| NoTiFiRecord.RecordRoundTrip | src/myn/notifi/protocol/LocationRecord.java:57-147 | the stream constructor reads back what encode wrote, with each double canonicalised, and leaves what follows |
| NoTiFiRecord.UnsignedShortBytes | src/myn/notifi/protocol/LocationRecord.java:60-123 | the two bytes readUnsignedShort consumed are what writeShort writes for its value |
| NoTiFiRecord.DoubleFromBytes | src/myn/notifi/protocol/LocationRecord.java:62-130 | the eight bytes of a non-NaN double are what encode writes for it |
| NoTiFiRecord.StringFromBytes | src/myn/notifi/protocol/LocationRecord.java:70-138 | the bytes of an ASCII string read are what encode writes for it |
| NoTiFiRecord.UnsignedShortPrefix | src/myn/notifi/protocol/LocationRecord.java:60 | readUnsignedShort looks only at its own two bytes |
| NoTiFiRecord.DoublePrefix | src/myn/notifi/protocol/LocationRecord.java:62-63 | reading a double looks only at its own eight bytes |
| NoTiFiRecord.StringPrefix | src/myn/notifi/protocol/LocationRecord.java:70-73 | reading a string looks only at its own bytes |
| NoTiFiRecord.RecordPrefix | src/myn/notifi/protocol/LocationRecord.java:57-84 | reading a record looks only at its own bytes: what follows changes only the rest |
| NoTiFiRecord.EncodeOfDecode | src/myn/notifi/protocol/LocationRecord.java:57-147 | bytes with ASCII strings and non-NaN doubles are exactly what encode writes for the record read from them |
| NoTiFiRecord.AsciiOfLatin1 | src/myn/notifi/protocol/LocationRecord.java:73-138 | bytes below 128 made into a string and encoded as ASCII come back unchanged |
| NoTiFiRecord.SameBytesEqual | src/myn/notifi/protocol/LocationRecord.java:154-176 | encodable records with the same bytes are equal |
| NoTiFiRecord.RecordEqualsIffSameBytes | src/myn/notifi/protocol/LocationRecord.java:154-176 | equals, with Double.compare on the doubles, holds for encodable records exactly when they encode to the same bytes |
| NoTiFiRecord.EncodeIgnoresNaNPayload | src/myn/notifi/protocol/LocationRecord.java:129-130 | encode cannot tell a record from its canonical form |
| NoTiFiMessage.SetMsgId | src/myn/notifi/protocol/NoTiFiMessage.java:208-214 | succeeds exactly when the id has no bit outside the low 8, and changes only the id |
| NoTiFiMessage.SetAddress | src/myn/notifi/protocol/NoTiFiDeregister.java:188-195 | refuses only null, and changes only the address |
| NoTiFiMessage.SetPort | src/myn/notifi/protocol/NoTiFiDeregister.java:205-212 | succeeds exactly when the port has no bit outside the low 16, and changes only the port |
| NoTiFiMessage.SetLocation | src/myn/notifi/protocol/NoTiFiLocationAddition.java:98-106 | refuses only null, and changes only the record |
| NoTiFiMessage.SetErrorMessage | src/myn/notifi/protocol/NoTiFiError.java:114-121 | refuses only null, and keeps any other text whole |
| NoTiFiMessage.NewEndpointMessage | src/myn/notifi/protocol/NoTiFiDeregister.java:106-111 | the Register and Deregister constructors succeed exactly when id, address and port pass their setters, and hold them |
| NoTiFiMessage.NewLocationMessage | src/myn/notifi/protocol/NoTiFiLocationAddition.java:61-65 | the Addition and Deletion constructors succeed exactly for a one-byte id and a non-null record, and hold them |
| NoTiFiMessage.NewError | src/myn/notifi/protocol/NoTiFiError.java:69-73 | succeeds exactly for a one-byte id and a non-null text |
| NoTiFiMessage.NewAck | src/myn/notifi/protocol/NoTiFiACK.java:55-57 | succeeds exactly for a one-byte id |
| NoTiFiMessage.HeaderBytes | src/myn/notifi/protocol/NoTiFiMessage.java:167-179 | the header is two bytes |
| NoTiFiMessage.EndpointBytes | src/myn/notifi/protocol/NoTiFiDeregister.java:133-139 | address and port take six bytes |
| NoTiFiMessage.EncodeEndpoint | src/myn/notifi/protocol/NoTiFiDeregister.java:128-151 | the loop that reverses the address bytes produces the Register/Deregister encoding |
| NoTiFiMessage.HeaderFrom | src/myn/notifi/protocol/NoTiFiMessage.java:43-71 | the header is accepted exactly when two bytes are there, the low nibble is the class's code and the high nibble is 3; the id is the second byte |
| NoTiFiMessage.EndpointFrom | src/myn/notifi/protocol/NoTiFiDeregister.java:60-82 | the address and port are read exactly when six bytes remain, and consume those six |
| NoTiFiMessage.LineLength | src/myn/notifi/protocol/NoTiFiError.java:51 | the first line ends at the first CR or LF |
| NoTiFiMessage.LineFrom | src/myn/notifi/protocol/NoTiFiError.java:51-54 | readLine never fails here and its reader takes the whole rest of the datagram |
| NoTiFiMessage.MessageFrom | src/myn/notifi/protocol/NoTiFiMessage.java:125-146 | the constructor picked by the code builds a message of that code that passes the setters |
| NoTiFiMessage.Decode | src/myn/notifi/protocol/NoTiFiMessage.java:101-157 | an empty packet is an IOException, an unknown code an IllegalArgumentException naming it, and a success consumed every byte |
| NoTiFiMessage.HeaderRoundTrip | src/myn/notifi/protocol/NoTiFiMessage.java:43-179 | the header reads back as the message id |
| NoTiFiMessage.EndpointRoundTrip | src/myn/notifi/protocol/NoTiFiDeregister.java:60-139 | the address and port read back unchanged |
| NoTiFiMessage.LineRoundTrip | src/myn/notifi/protocol/NoTiFiError.java:51-84 | one line of ASCII error text reads back unchanged |
| NoTiFiMessage.DecodeEncode | src/myn/notifi/protocol/NoTiFiMessage.java:101-179 | decode of encode gives the message back, its doubles canonical |
| NoTiFiMessage.DecodedHeader | src/myn/notifi/protocol/NoTiFiMessage.java:43-179 | the first two bytes of any packet that decodes are the header encode writes for the decoded message |
| NoTiFiMessage.EncodeDecode | src/myn/notifi/protocol/NoTiFiMessage.java:101-179 | a datagram that decodes to a message without NaN payloads, non-ASCII text or a second line is that message's encoding |
| NoTiFiMessage.EndpointBytesOf | src/myn/notifi/protocol/NoTiFiDeregister.java:60-139 | six bytes read as address and port are written back unchanged |
| NoTiFiMessage.DecodedPassesSetters | src/myn/notifi/protocol/NoTiFiMessage.java:101-157 | every decoded message also passes the setters of its value constructor |
| NoTiFiMessage.ShortHeaderRefused | src/myn/notifi/protocol/NoTiFiMessage.java:52-53 | a one-byte packet of a known code is an IOException |
| NoTiFiMessage.WrongVersionRefused | src/myn/notifi/protocol/NoTiFiMessage.java:65-67 | a version other than 3 is refused with "Wrong version." |
| NoTiFiMessage.TrailingBytesRefused | src/myn/notifi/protocol/NoTiFiMessage.java:152-154 | bytes after a complete ACK are refused with "More data than necessary." |
| NoTiFiMessage.TruncatedRefused | src/myn/notifi/protocol/NoTiFiMessage.java:101-157 | a truncated Register, Deregister, Addition or Deletion is an IOException |
| NoTiFiMessage.TruncatedBodyRefused | src/myn/notifi/protocol/NoTiFiMessage.java:125-146 | the stream constructor of a Register, Deregister, Addition or Deletion throws an IOException on a cut-short encoding |
| NoTiFiMessage.TruncatedRecordRefused | src/myn/notifi/protocol/LocationRecord.java:57-84 | a truncated record is an IOException |
| NoTiFiMessage.RecordFaultsAreIO | src/myn/notifi/protocol/LocationRecord.java:57-84 | the record constructor only fails by running out of bytes (an IOException) |
| NoTiFiMessage.AdditionEqualsIgnoresRecord | src/myn/notifi/protocol/NoTiFiLocationAddition.java:128-136 | as written, two additions are equal exactly when their message ids are |
| NoTiFiMessage.AdditionEqualsCounterexample | src/myn/notifi/protocol/NoTiFiLocationAddition.java:131 | two additions of different users' records compare equal as written and unequal as intended |
| NoTiFiMessage.EqualsAsWrittenElsewhere | src/myn/notifi/protocol/NoTiFiMessage.java:237-245 | outside additions the written and the intended equals agree |
| NoTiFiMessage.MessageEqualsIsCanonicalEquality | src/myn/notifi/protocol/NoTiFiLocationDeletion.java:111-120 | the intended equals is equality up to NaN payloads |
| NoTiFiMessage.EncodeIgnoresCanonicalization | src/myn/notifi/protocol/LocationRecord.java:129-130 | encode cannot tell a message from its canonical form |
| NoTiFiMessage.MessageEqualsIffSameBytes | src/myn/notifi/protocol/NoTiFiLocationDeletion.java:111-120 | two encodable messages are equal exactly when their datagrams are |
| NoTiFiMessage.AckExample | src/myn/notifi/protocol/test/NoTiFiACKTest.java:26-52 | ACK 15 is 35 0F both ways |
| NoTiFiMessage.AckBytes | src/myn/notifi/protocol/NoTiFiMessage.java:167-179 | every ACK encodes as its header alone: 35 and the message id |
| NoTiFiMessage.ErrorExample | src/myn/notifi/protocol/test/NoTiFiErrorTest.java:26-60 | Error(15, "Error") is 34 0F 45 72 72 6F 72 both ways |
| NoTiFiMessage.EndpointExample | src/myn/notifi/protocol/NoTiFiDeregister.java:133-139 | the address 4.3.2.1 and port 5000 travel as 01 02 03 04 88 13 |
| NoTiFiMessage.RegisterExample | src/myn/notifi/protocol/test/NoTiFiRegisterTest.java:29-80 | 30 00 01 02 03 04 88 13 decodes to Register(0, 4.3.2.1, 5000) |
| NoTiFiMessage.RegisterBytes | src/myn/notifi/protocol/test/NoTiFiRegisterTest.java:29-80 | Register(0, 4.3.2.1, 5000) encodes to 30 00 01 02 03 04 88 13 |
| NoTiFiMessage.DeregisterExample | src/myn/notifi/protocol/test/NoTiFiDeregisterTest.java:28-80 | 33 00 01 02 03 04 88 13 decodes to Deregister(0, 4.3.2.1, 5000) |
| NoTiFiMessage.DeregisterBytes | src/myn/notifi/protocol/test/NoTiFiDeregisterTest.java:28-80 | Deregister(0, 4.3.2.1, 5000) encodes to 33 00 01 02 03 04 88 13 |
| NoTiFiMessage.UnknownCodeExample | src/myn/notifi/protocol/NoTiFiMessage.java:144-145 | code 6 is refused with "Unexpected code: 6" |
| NoTiFiMessage.ErrorSecondLineDropped | src/myn/notifi/protocol/NoTiFiError.java:51 | an error datagram keeps only its first line and the rest is not reported as extra data |
| MapServer.ErrorReply | src/myn/addatude/app/AddATudeServer.java:403-412 | makeError gives an error message exactly when the map id is non-negative, and null otherwise |
| MapServer.FailureReplyIsError | src/myn/addatude/app/AddATudeAIOHandler.java:65-87 | every failed decode is answered with an error message (map id 0 except for an unknown operation), and only an unknown operation under a negative map id leaves null |
| MapServer.FirstOfUser | src/myn/addatude/app/AddATudeAIOHandler.java:307-309 | the search stops at the user's first record, and no earlier record is the user's |
| MapServer.UpdatedIndex | src/myn/addatude/app/AddATudeAIOHandler.java:307-342 | updateMap overwrites the user's first record in place, or appends the record when the user has none |
| MapServer.UpdatedLength | src/myn/addatude/app/AddATudeAIOHandler.java:340-342 | the list grows by one exactly when the user had no record in it |
| MapServer.NoRecordsOf | src/myn/addatude/app/AddATudeAIOHandler.java:307-309 | a user has records exactly when the search finds one |
| MapServer.UpdatedKeepsOthers | src/myn/addatude/app/AddATudeAIOHandler.java:307-342 | other users' records are untouched, in content and in order |
| MapServer.UpdatedHoldsRecord | src/myn/addatude/app/AddATudeAIOHandler.java:288-342 | in a list with one record per user, afterwards the user's only record is the new, renamed one |
| MapServer.UpdatedKeepsUsersUnique | src/myn/addatude/app/AddATudeAIOHandler.java:307-342 | updateMap keeps one record per user |
| MapServer.NoticesReportReplacement | src/myn/addatude/app/AddATudeAIOHandler.java:307-363 | the NoTiFi server is told of the replaced record's deletion, if there was one, then of the new record's addition; with a NoTiFi client registered, a replaced record that cannot be bridged throws out of notifyDeletion before the list changes and nothing is reported, and a new record that cannot be bridged throws out of notifyAddition after the list was updated and only the deletion was reported |
| MapServer.BridgeableIffBuilt | src/myn/notifi/protocol/LocationRecord.java:259-316 | the NoTiFi record that notifyDeletion and notifyAddition build from an AddATude record is accepted by its setters exactly when the user id fits in 16 bits and the name and description have at most 255 UTF-16 units, whatever the coordinates |
| MapServer.OneRecordOf | src/myn/addatude/app/AddATudeAIOHandler.java:307-342 | with one record per user a user has at most one record |
| MapServer.FirstRecordOf | src/myn/addatude/app/AddATudeAIOHandler.java:307-309 | the record the search finds is the user's first |
| MapServer.OnlyNewLocationChanges | src/myn/addatude/app/AddATudeAIOHandler.java:93-163 | only NEW for a known map from a known user changes the tables or notifies, and no map is added or removed |
| MapServer.AnswerKeepsUsersUnique | src/myn/addatude/app/AddATudeAIOHandler.java:93-163 | whatever message arrives, every map keeps one record per user |
| MapServer.NewLocationListsMap | src/myn/addatude/app/AddATudeAIOHandler.java:113-119 | NEW from a known user gets no reply exactly when a NoTiFi client is registered and the user's previous record or the renamed new one cannot be bridged; otherwise it is answered with the map's name and the updated map: the user's one record is the new one and every other user's are as before |
| MapServer.LongNameUnanswered | src/myn/addatude/app/AddATudeAIOHandler.java:297-299 | with a NoTiFi client registered, a NEW whose renamed name "user: name" is longer than 255 characters gets no reply, whatever the map holds |
| MapServer.FrameOfMessage | src/myn/addatude/app/AddATudeAIOHandler.java:52-187 | a frame holding one well-formed message is answered as the decision table says, including a NEW whose notification throws and is left without a reply |
| MapServer.ClientPass | src/myn/addatude/app/AddATudeServer.java:226-355 | every pass of handleClient's loop that does not stop consumes input |
| MapServer.NothingToDecode | src/myn/addatude/app/AddATudeServer.java:272-277 | decode at end of input is an EOFException, which ends the loop |
| MapServer.PassOfMessage | src/myn/addatude/app/AddATudeServer.java:226-355 | one pass over a well-formed message handles it as the decision table says, including the exception out of updateMap that leaves it unanswered, and leaves the input after it |
| MapServer.SessionReplaysMessages | src/myn/addatude/app/AddATudeServer.java:200-390 | the threaded server answers a stream of well-formed messages one by one, each from the tables the previous ones left, exactly as the reference replay does, and stops without a reply at the first one whose handling throws (a null reply or an exception out of updateMap) |
| MapServer.MapRegistry.constructor | src/myn/addatude/app/AddATudeServer.java:135-137 | the server starts from the given tables and has notified nothing |
| MapServer.MapRegistry.UpdateMap | src/myn/addatude/app/AddATudeServer.java:520-603 | the loop leaves the map updated (user's first record replaced or record appended) and the notifications of that replacement appended, and no other map changed; with a NoTiFi client registered, a replaced record that cannot be bridged throws before the list changes, and a new one that cannot be bridged throws after the update without the addition |
| MapServer.MapRegistry.MakeResponse | src/myn/addatude/app/AddATudeServer.java:424-451 | the loop builds the response under the map's name with the map's records in list order, or null for a map without a name |
| MapServer.MapRegistry.Respond | src/myn/addatude/app/AddATudeServer.java:284-355 | the switch changes the tables, notifies and replies exactly as the decision table says, and an exception out of updateMap leaves no reply |
| MapServer.MapRegistry.HandleMessage | src/myn/addatude/app/AddATudeAIOHandler.java:52-187 | handleMessage decodes the frame, answers it as the decision table says and returns the encoded reply, or nothing when the reply is null or updateMap threw |
| MapServer.MapRegistry.Choose | src/myn/addatude/app/AddATudeAIOHandler.java:65-163 | the catch clauses and the switch answer the outcome of decode as the decision table says, with no reply when updateMap throws |
| MapServer.MapRegistry.EncodeReply | src/myn/addatude/app/AddATudeAIOHandler.java:169-186 | the reply is the encoding of the message, or nothing when it is null |
| MapServer.MapRegistry.PurgeInput | src/myn/addatude/app/AddATudeServer.java:465-480 | purge reports true exactly when purging failed, and leaves the input where purging left it |
| MapServer.MapRegistry.ServeOne | src/myn/addatude/app/AddATudeServer.java:228-355 | one pass of the loop agrees with the pass specification: EOFException stops it with nothing changed, and an exception out of updateMap leaves no reply |
| MapServer.MapRegistry.HandleClient | src/myn/addatude/app/AddATudeServer.java:200-390 | handleClient leaves the tables, the notifications and the bytes written exactly as the session specification says, and ends without closing the socket when a null reply or updateMap throws |
| FrameAssembler.ScanFrom | src/myn/addatude/app/AddATudeAIODispatcher.java:154-161 | the scan from index i returns one past the first CR LF it meets, or -1 when there is none from i on |
| FrameAssembler.EolnPosition | src/myn/addatude/app/AddATudeAIODispatcher.java:151-163 | getEOLNPosition is -1 exactly when the bytes hold no CR LF, and otherwise one past the first CR LF |
| FrameAssembler.SplitFrameShape | src/myn/addatude/app/AddATudeAIODispatcher.java:109-140 | frame and leftover make up the buffered bytes, the frame ends in its only CR LF, and without a CR LF there is no frame |
| FrameAssembler.FrameOfText | src/myn/addatude/app/AddATudeAIODispatcher.java:109-121 | a text ending in its only CR LF, followed by anything, is cut off exactly as written |
| FrameAssembler.MessageFrame | src/myn/addatude/app/AddATudeAIODispatcher.java:109-121 | a well-formed message without an earlier CR LF is cut off whole and decodes back to itself |
| FrameAssembler.PutOverrun | src/myn/addatude/app/AddATudeAIODispatcher.java:131 | a full buffer starting with an empty line yields a frame, and the put as written reads past the local array |
| FrameAssembler.Pruned | src/myn/addatude/app/AddATudeAIODispatcher.java:176-180 | pruning drops only fully written buffers at the front and stops at the first one with bytes left |
| FrameAssembler.PrunedKeepsUnsent | src/myn/addatude/app/AddATudeAIODispatcher.java:176-180 | every buffer with bytes still to send survives pruning, in its place |
| FrameAssembler.PrunedIsSuffix | src/myn/addatude/app/AddATudeAIODispatcher.java:176-180 | what pruning keeps is the tail of the write list, in order and untouched |
| FrameAssembler.Dispatcher.constructor | src/myn/addatude/app/AddATudeAIODispatcher.java:39-57 | a new dispatcher has an empty 1024-byte read buffer and no pending writes |
| FrameAssembler.Dispatcher.HandleAccept | src/myn/addatude/app/AddATudeAIODispatcher.java:65-68 | a new connection starts with a read |
| FrameAssembler.Dispatcher.Receive | src/myn/addatude/app/AddATudeAIODispatcher.java:89-90 | a read appends the bytes that arrived after the buffered ones |
| FrameAssembler.Dispatcher.ProcessWriteBuffer | src/myn/addatude/app/AddATudeAIODispatcher.java:79-92 | a non-empty reply is queued and a write requested; no reply or an empty one requests a read |
| FrameAssembler.Dispatcher.GetEolnPosition | src/myn/addatude/app/AddATudeAIODispatcher.java:151-163 | the loop with its found flag returns the first CR LF position of the bytes up to the limit |
| FrameAssembler.Dispatcher.CopyOut | src/myn/addatude/app/AddATudeAIODispatcher.java:102-103 | flip and get copy exactly the buffered bytes to the local array |
| FrameAssembler.Dispatcher.TakeFrame | src/myn/addatude/app/AddATudeAIODispatcher.java:102-109 | after flip, copy and scan, the local array holds the buffered bytes and the position found is the frame's end |
| FrameAssembler.Dispatcher.KeepLeftover | src/myn/addatude/app/AddATudeAIODispatcher.java:130-132 | as intended, the bytes after the frame move to the start of the read buffer |
| FrameAssembler.Dispatcher.KeepLeftoverAsWritten | src/myn/addatude/app/AddATudeAIODispatcher.java:130-132 | as written, the put succeeds exactly when frame end plus limit fits in the local array, and then leaves exactly the leftover buffered |
| FrameAssembler.Dispatcher.HandleRead | src/myn/addatude/app/AddATudeAIODispatcher.java:100-144 | without a frame everything stays buffered and a read follows; with one, exactly the first frame is handled, its reply queued and only the leftover kept; a null reply or an exception out of updateMap stalls the channel |
| FrameAssembler.Dispatcher.HandleReadAsWritten | src/myn/addatude/app/AddATudeAIODispatcher.java:100-144 | as written, when the put overruns the handler has already answered but the reply is never queued and the channel stalls |
| FrameAssembler.Dispatcher.HandleWrite | src/myn/addatude/app/AddATudeAIODispatcher.java:171-191 | the write list is pruned, then a write follows exactly when something is left, and a read otherwise |
| FrameAssembler.Dispatcher.ReadCompleted | src/myn/addatude/app/AddATudeAIODispatcher.java:217-231 | -1 closes the channel without touching the buffer; otherwise the received bytes are buffered and handled |
| NoTiFiServer.Respond | src/myn/notifi/app/NoTiFiServer.java:190-296 | the reply is always an ACK or an error; a datagram that cannot be decoded is answered with id 0 and the decoder's text (or "Unable to parse message" for a short read) and leaves the registry alone; any decoded request is answered under its own message id |
| NoTiFiServer.AckIffRegistryChanged | src/myn/notifi/app/NoTiFiServer.java:217-296 | the server acknowledges a request exactly when the request changed the client list |
| NoTiFiServer.RegisterRecordsSource | src/myn/notifi/app/NoTiFiServer.java:220-265 | a Register is acknowledged iff its address is not multicast, its port is the datagram's source port and the source is not yet registered; then the source endpoint is recorded under the message id |
| NoTiFiServer.ReregisterKeepsId | src/myn/notifi/app/NoTiFiServer.java:242-253 | a Register from an already registered source is refused with "Already registered" and the first id is kept |
| NoTiFiServer.DeregisterForgetsSource | src/myn/notifi/app/NoTiFiServer.java:266-284 | a Deregister removes the datagram's source whatever endpoint it names, and is acknowledged iff that source was registered, otherwise refused with "Unknown client" |
| NoTiFiServer.RegisterThenDeregister | src/myn/notifi/app/NoTiFiServer.java:220-284 | registering and then deregistering from one source are both acknowledged and leave the client list as it was |
| NoTiFiServer.RegisterDatagramAcked | src/myn/notifi/app/NoTiFiServer.java:220-265 | a datagram that decodes to a non-multicast Register naming its source's port, from an unregistered source, is acknowledged and records the source |
| NoTiFiServer.OtherMessagesRefused | src/myn/notifi/app/NoTiFiServer.java:285-296 | any message other than Register and Deregister is refused with "Unexpected message type: " and its code, and the registry is untouched |
| NoTiFiServer.RegisterDatagramExample | src/myn/notifi/app/NoTiFiServer.java:220-247 | the register bytes 30 00 01 02 03 04 88 13 from 1.2.3.4:5000 register that endpoint under id 0 and are answered with the ACK bytes 35 00 |
| NoTiFiServer.EmptyDatagramRefused | src/myn/notifi/app/NoTiFiServer.java:205-215 | an empty datagram is answered with an error of id 0 and "Unable to parse message" |
| NoTiFiServer.Notice | src/myn/notifi/app/NoTiFiServer.java:112-118 | the notice carries the Deletion or Addition code, the client's registered id and the record |
| NoTiFiServer.NoticeCount | src/myn/notifi/app/NoTiFiServer.java:105-153 | a complete notice round sends exactly one datagram per registered client |
| NoTiFiServer.Registry.constructor | src/myn/notifi/app/NoTiFiServer.java:53-54 | the server starts with no registered clients and nothing sent |
| NoTiFiServer.Registry.HandleClients | src/myn/notifi/app/NoTiFiServer.java:190-310 | one received datagram updates the client list as Respond says and appends the encoded reply, addressed to the datagram's source, to what was sent |
| NoTiFiServer.Registry.Notify | src/myn/notifi/app/NoTiFiServer.java:105-153 | with no client registered nothing is built or sent; otherwise a record the setters refuse raises their fault and sends nothing, and a valid record is sent to every registered client exactly once, under that client's id |
| NoTiFiServer.Registry.SendNotices | src/myn/notifi/app/NoTiFiServer.java:112-118 | the loop appends one notice per registered client, each to that client with its own id, to no endpoint twice and missing none |
| NoTiFiClient.Report | src/myn/notifi/app/NoTiFiClient.java:318-329 | an ACK for another id prints "Unexpected MSG ID", an error prints its own text, and any other message prints nothing |
| NoTiFiClient.AwaitReadsPrefix | src/myn/notifi/app/NoTiFiClient.java:295-346 | one wait for the ACK consumes a prefix of what the socket gives and only appends to what was printed |
| NoTiFiClient.AwaitAckedOnlyByOwnAck | src/myn/notifi/app/NoTiFiClient.java:318-325 | a wait ends with the ACK only just after reading an ACK that carries the client's own message id |
| NoTiFiClient.EndingOf | src/myn/notifi/app/NoTiFiClient.java:255-349 | a wait that did not run out of time ends expectACK, and it reports success exactly when the ACK came |
| NoTiFiClient.SendCount | src/myn/notifi/app/NoTiFiClient.java:261-289 | every attempt sends the same request once: at least once and at most MAX_RESPONSE_ATTEMPTS (2) times, and exactly that often when no ACK came |
| NoTiFiClient.AttemptsReadPrefix | src/myn/notifi/app/NoTiFiClient.java:261-347 | all attempts together consume a prefix of what the socket gives |
| NoTiFiClient.AckedOnlyByOwnAck | src/myn/notifi/app/NoTiFiClient.java:255-349 | expectACK returns true only after reading an ACK that carries the client's own message id |
| NoTiFiClient.Datagram | src/myn/notifi/app/NoTiFiMessageHandler.java:79-92 | a datagram holding the encoding of a valid message is read back by getMessage as that message |
| NoTiFiClient.MatchingAckEndsWait | src/myn/notifi/app/NoTiFiClient.java:319-321 | the awaited ACK ends the wait at once and prints nothing |
| NoTiFiClient.OtherMessageKeepsWaiting | src/myn/notifi/app/NoTiFiClient.java:318-329 | any other message that decodes is reported and the wait goes on with the same time left |
| NoTiFiClient.TimeoutRecomputesTimeLeft | src/myn/notifi/app/NoTiFiClient.java:330-345 | after a timeout the wait goes on for the time left until the attempt's deadline, and ends once that deadline is past |
| NoTiFiClient.SilenceRetries | src/myn/notifi/app/NoTiFiClient.java:261-295 | a first attempt that times out is followed by a second sending of the same request |
| NoTiFiClient.TwoSilencesGiveUp | src/myn/notifi/app/NoTiFiClient.java:261-348 | two silent attempts send the request twice and expectACK returns false |
| NoTiFiClient.AckOnSecondAttempt | src/myn/notifi/app/NoTiFiClient.java:261-348 | an ACK with the client's id after one silent attempt makes expectACK return true after two sendings |
| NoTiFiClient.ForeignAckReported | src/myn/notifi/app/NoTiFiClient.java:318-325 | the datagram 35 10 (an ACK for id 16) is reported to a client with id 15, which then accepts 35 0F |
| NoTiFiClient.UnknownCodeEscapes | src/myn/notifi/app/NoTiFiClient.java:295-299 | a datagram of unknown code (36 00) makes getMessage throw an IllegalArgumentException that expectACK does not catch, after one sending and with nothing printed |
| NoTiFiClient.RegistrationHandshake | src/myn/notifi/app/NoTiFiClient.java:204-221 | a Register naming the client's own endpoint is recorded by the server, and the server's reply ends expectACK after one sending |
| NoTiFiClient.ServerHandler.constructor | src/myn/notifi/app/NoTiFiClient.java:136-148 | the handler starts with its message id and local endpoint, nothing sent and nothing printed |
| NoTiFiClient.ServerHandler.ExpectAck | src/myn/notifi/app/NoTiFiClient.java:255-349 | the two nested loops of expectACK send, print, consume and end exactly as the attempt specification says |
| NoTiFiClient.ServerHandler.AwaitAck | src/myn/notifi/app/NoTiFiClient.java:295-346 | the inner receive loop ends, prints and consumes exactly as the wait specification says |
| NoTiFiClient.ServerHandler.MakeConnection | src/myn/notifi/app/NoTiFiClient.java:204-221 | makeConnection sends a Register for the socket's local endpoint through expectACK and prints the register problem only when no ACK came |
| NoTiFiClient.ServerHandler.CloseConnection | src/myn/notifi/app/NoTiFiClient.java:228-245 | closeConnection sends a Deregister for the socket's local endpoint through expectACK and prints the deregister problem only when no ACK came |

## Left out

- Sockets, streams and channels are replaced by values. A connection's input is a byte sequence, with a marker for a read that throws. Output is an appended byte sequence. A UDP datagram is a byte sequence with its endpoint.
- Threads, thread pools, `synchronized` blocks and the concurrent use of the shared tables are not modelled. Every operation runs alone.
- Logging, standard error, `hashCode`, `toString`, the `main` methods, command-line parsing and the password file are left out. None of them decides what is sent or stored.
- `NoTiFiLocationAddition.hashCode` (src/myn/notifi/protocol/NoTiFiLocationAddition.java:112-119) updates a local `prime` and returns `hash`, which stays 1, so every Addition has hash code 1. This breaks no contract with `equals`, and no hashed collection in the core holds Additions, so it is not modelled.
- `AddATudeClient`, `NoTiFiMulticastClient`, `AddATudeServerAIO` (the acceptor) and the map drawing (`mapManager`, `GoogleMapMaker`) are not modelled. They are callers or consumers of the core.
- Register is modelled from NoTiFiRegisterTest.java: the same layout as Deregister, under code 0.
- Floating point is not modelled. AddATude keeps longitude and latitude as the text the signed-double pattern accepts. NoTiFi keeps each double as its 64-bit pattern; only the NaN rule of `doubleToLongBits` and `Double.compare` is modelled.
- MapServer.MapRegistry.UpdateMap: `Double.parseDouble` of the text coordinates before the NoTiFi notice is built is not modelled, so a notice is logged as the text record that caused it.
- MapServer.MapRegistry: whether the NoTiFi server has a registered client is the field `listening`, fixed for the registry's lifetime. Registrations that arrive concurrently, between or during the messages of a session, are not modelled.
- TextOutput.MessageOutput: the failure flag `broken` is fixed for the stream's lifetime, so a stream that starts failing part-way through is not expressible. `encode` makes at least three writes (header, payload, CR LF). In the source, a failure on a later write leaves the earlier writes' bytes on the wire; the model writes either the whole message or nothing.
- TextMessage.Encode: "the whole message, or nothing when the stream fails" holds only because the failure flag is fixed per stream. A partial message left by a stream that fails between two of encode's writes is not modelled.
- NoTiFi strings are decoded with one character per byte (`new String(bytes)` and `InputStreamReader` with a Latin-1 default charset). Other default charsets are not modelled.
- The NoTiFi server's client list is a `TreeMap` with a comparator that answers -1 for every pair of different endpoints. It is modelled as an exact map from endpoint to message id, which is what the code relies on. Such a tree misses keys: after registrations from k1, k2 and k3 the insertions rebalance it to root k2, left k3, right k1, and looking up k1 descends left and finds nothing. The model does not capture three effects of this: a second Register from k1 is acknowledged and stored again instead of getting "Already registered"; a Deregister from k1 gets "Unknown client"; and `notifyAddition` and `notifyDeletion` unbox the null id that `get(k1)` returns, and the NullPointerException escapes `updateMap`, so every later NEW that notifies goes unanswered.
- Setters are modelled as functions that return a new record or message. Aliasing of a record shared between two messages is not modelled.
- FrameAssembler.Dispatcher.HandleRead: `getRemoteAddress` is assumed to succeed. Its IOException, which leaves the reply null, is not modelled.
- FrameAssembler.Dispatcher.HandleWrite: how many bytes one gathering write takes is up to the channel. The model takes the write list as the channel left it.
- FrameAssembler.Dispatcher.HandleRead: a read buffer filled to its 1024 bytes without a CR LF asks for a read into a full buffer and makes no progress. The model returns `Read` there and does not model the channel's zero-byte reads.
- NoTiFiClient.ServerHandler.ExpectAck: the socket and the clock are a script of events. Each event is one `getMessage(receivePacket())`: a decoded outcome, a read failure, or a timeout carrying the milliseconds since the attempt began. `OutOfEvents` and `Unscripted` only say that the script ended first.
- NoTiFiClient.ServerHandler.ExpectAck: `setSoTimeout` and `send` failures exit the client in the source. They are not modelled; the sent messages are recorded as messages, and NoTiFiClient.Datagram relates them to their bytes.
- NoTiFiClient.ServerHandler.MakeConnection and CloseConnection: building the request from the socket's own endpoint cannot fail, so the `IllegalArgumentException` branch is not modelled. `System.exit` after a missing ACK is modelled as the `NotAcked` ending.
- NoTiFiServer.Registry.HandleClients: a failing `receivePacket` exits the server and a failing send only prints to standard error. Neither is modelled.
- NoTiFiServer.Registry.Notify: the notices are sent in the order of the map's keys. The model proves that each client gets exactly one, in some order.

## Findings

| source | as written | input that shows it | evidently intended | confidence | as-written member | corrected member |
|---|---|---|---|---|---|---|
| src/myn/addatude/protocol/LocationRecord.java:223 | `setLatitude` checks the record's longitude against the signed-double pattern instead of the new latitude | the constructor with longitude "1.2" and latitude "north" builds a record | the latitude is checked as the longitude is | not executed | TextRecord.LatitudeNotChecked | TextRecord.SetLatitude |
| src/myn/notifi/protocol/NoTiFiLocationAddition.java:131 | `equals` compares the record with itself, so it is always true for the payload | two Additions with id 1 whose records have user ids 1 and 2 are equal | Additions are equal only when their records are | not executed | NoTiFiMessage.AdditionEqualsCounterexample | NoTiFiMessage.MessageEqualsIffSameBytes |
| src/myn/addatude/app/AddATudeAIODispatcher.java:131 | `put(localBuffer, pos, limit)` copies `limit` bytes from index `pos`, beyond the 1024-byte array when pos + limit > 1024 | a full buffer that starts with CR LF: pos 2, limit 1024 | copy the `limit - pos` leftover bytes | not executed | FrameAssembler.PutOverrun | FrameAssembler.Dispatcher.HandleRead |
