/**
 * The AddATude LocationRecord: a user id and four strings, written as text
 * `userId longitude latitude nameLength name` immediately followed by
 * `descriptionLength description`, and read back field by field from a
 * MessageInput.
 */
module TextRecord {
  import opened JavaLang
  import opened TextInput
  import opened TextOutput

  /** Coordinates are kept as the text that was read or set. */
  datatype LocationRecord = LocationRecord(
    userId: int32,
    longitude: string,
    latitude: string,
    name: string,
    description: string)

  // ---------------------------------------------------------------------
  // Setters and the value constructor (None stands for a null argument)

  /** setUserId: a negative id is an AddATudeException. */
  function SetUserId(r: LocationRecord, userId: int32): (res: Result<LocationRecord>)
    ensures res.Ok? <==> 0 <= userId
    ensures res.Ok? ==> res.value == r.(userId := userId)
    ensures res.Fail? ==> res.failure == Parse(false)
  {
    if userId < 0 then Fail(Parse(false)) else Ok(r.(userId := userId))
  }

  /** setLongitude: null or text not matching the signed-double pattern is rejected. */
  function SetLongitude(r: LocationRecord, longitude: Option<string>): (res: Result<LocationRecord>)
    ensures res.Ok? <==> longitude.Some? && IsValidSignedDouble(longitude.value)
    ensures res.Ok? ==> res.value == r.(longitude := longitude.value)
    ensures res.Fail? ==> res.failure == Parse(false)
  {
    if longitude.None? || !IsValidSignedDouble(longitude.value) then Fail(Parse(false))
    else Ok(r.(longitude := longitude.value))
  }

  /**
   * setLatitude as the source has it: the pattern check is applied to the
   * record's longitude field, not to the new latitude.
   */
  function SetLatitudeAsWritten(r: LocationRecord, latitude: Option<string>): (res: Result<LocationRecord>)
    ensures res.Ok? <==> latitude.Some? && IsValidSignedDouble(r.longitude)
    ensures res.Ok? ==> res.value == r.(latitude := latitude.value)
  {
    if latitude.None? || !IsValidSignedDouble(r.longitude) then Fail(Parse(false))
    else Ok(r.(latitude := latitude.value))
  }

  /** setLatitude as intended: the same check as setLongitude, on the new latitude. */
  function SetLatitude(r: LocationRecord, latitude: Option<string>): (res: Result<LocationRecord>)
    ensures res.Ok? <==> latitude.Some? && IsValidSignedDouble(latitude.value)
    ensures res.Ok? ==> res.value == r.(latitude := latitude.value)
    ensures res.Fail? ==> res.failure == Parse(false)
  {
    if latitude.None? || !IsValidSignedDouble(latitude.value) then Fail(Parse(false))
    else Ok(r.(latitude := latitude.value))
  }

  /** setLocationName: only null is rejected. */
  function SetLocationName(r: LocationRecord, name: Option<string>): (res: Result<LocationRecord>)
    ensures res.Ok? <==> name.Some?
    ensures res.Ok? ==> res.value == r.(name := name.value)
  {
    if name.None? then Fail(Parse(false)) else Ok(r.(name := name.value))
  }

  /** setLocationDescription: only null is rejected. */
  function SetLocationDescription(r: LocationRecord, description: Option<string>): (res: Result<LocationRecord>)
    ensures res.Ok? <==> description.Some?
    ensures res.Ok? ==> res.value == r.(description := description.value)
  {
    if description.None? then Fail(Parse(false)) else Ok(r.(description := description.value))
  }

  /** The record fields hold before the value constructor has set them. */
  const Unset := LocationRecord(0, "", "", "", "")

  /** The value constructor: the five setters in order, the first failure wins. */
  function MakeRecord(userId: int32, longitude: Option<string>, latitude: Option<string>,
                      name: Option<string>, description: Option<string>): (res: Result<LocationRecord>)
    ensures res.Ok? <==>
      0 <= userId && longitude.Some? && IsValidSignedDouble(longitude.value) &&
      latitude.Some? && IsValidSignedDouble(latitude.value) && name.Some? && description.Some?
    ensures res.Ok? ==>
      res.value == LocationRecord(userId, longitude.value, latitude.value, name.value, description.value)
  {
    var r0 := SetUserId(Unset, userId);
    if r0.Fail? then r0 else
    var r1 := SetLongitude(r0.value, longitude);
    if r1.Fail? then r1 else
    var r2 := SetLatitude(r1.value, latitude);
    if r2.Fail? then r2 else
    var r3 := SetLocationName(r2.value, name);
    if r3.Fail? then r3 else
    SetLocationDescription(r3.value, description)
  }

  /** The value constructor as the source has it, with the latitude setter that checks the longitude. */
  function MakeRecordAsWritten(userId: int32, longitude: Option<string>, latitude: Option<string>,
                               name: Option<string>, description: Option<string>): (res: Result<LocationRecord>)
    ensures res.Ok? <==>
      0 <= userId && longitude.Some? && IsValidSignedDouble(longitude.value) &&
      latitude.Some? && name.Some? && description.Some?
  {
    var r0 := SetUserId(Unset, userId);
    if r0.Fail? then r0 else
    var r1 := SetLongitude(r0.value, longitude);
    if r1.Fail? then r1 else
    var r2 := SetLatitudeAsWritten(r1.value, latitude);
    if r2.Fail? then r2 else
    var r3 := SetLocationName(r2.value, name);
    if r3.Fail? then r3 else
    SetLocationDescription(r3.value, description)
  }

  /** A latitude that is not a number is accepted by the source's constructor and refused by the intended one. */
  lemma LatitudeNotChecked()
    ensures MakeRecordAsWritten(1, Some("1.2"), Some("north"), Some("BU"), Some("Baylor")).Ok?
    ensures MakeRecord(1, Some("1.2"), Some("north"), Some("BU"), Some("Baylor")).Fail?
  {
    assert IsValidSignedDouble("1.2") by {
      assert Unsigned("1.2") == "1.2";
      assert "1.2"[1] == '.' && AllDigits("1.2"[..1]) && AllDigits("1.2"[2..]);
    }
    assert !IsValidSignedDouble("north") by {
      assert Unsigned("north") == "north";
      assert !IsDigit("north"[0]);
      assert forall i :: 0 <= i < 5 ==> "north"[i] != '.';
    }
  }

  // ---------------------------------------------------------------------
  // Encoding

  /** The length prefix encode writes before a string: String.length() in decimal. */
  function LengthText(s: string): (t: string)
    ensures 0 < |t| && AllDigits(t)
  {
    NatToDecimal(JavaLength(s))
  }

  /** encode's text: no space between the name and the description's length. */
  function RecordText(r: LocationRecord): string {
    UnsignedToDecimal(r.userId) + " " + (r.longitude + " " + (r.latitude + " " +
      (LengthText(r.name) + " " + (r.name + (LengthText(r.description) + " " + r.description)))))
  }

  /** encode(out): one write of the record's text. */
  method EncodeRecord(rec: LocationRecord, out: MessageOutput) returns (r: Result<()>)
    modifies out`written
    ensures !out.broken ==> r == Ok(()) && out.written == old(out.written) + Ascii(RecordText(rec))
    ensures out.broken ==> r == Fail(Parse(true)) && out.written == old(out.written)
  {
    r := out.Write(RecordText(rec));
  }

  /** The five fields of the record in the unit tests, spelled out. */
  lemma ExampleText()
    ensures "1" + " " + ("1.2" + " " + ("3.4" + " " + ("2" + " " + ("BU" + ("6" + " " + "Baylor"))))) ==
      "1 1.2 3.4 2 BU6 Baylor"
  {
  }

  /** (1, "1.2", "3.4", "BU", "Baylor") is written as `1 1.2 3.4 2 BU6 Baylor`. */
  lemma RecordTextExample()
    ensures RecordText(LocationRecord(1, "1.2", "3.4", "BU", "Baylor")) == "1 1.2 3.4 2 BU6 Baylor"
  {
    assert UnsignedToDecimal(1) == "1";
    assert JavaLength("BU") == 2;
    assert JavaLength("Baylor") == 6 by {
      assert "Baylor"[1..] == "aylor";
      assert "aylor"[1..] == "ylor";
      assert "ylor"[1..] == "lor";
      assert "lor"[1..] == "or";
      assert "or"[1..] == "r";
    }
    assert LengthText("BU") == "2" && LengthText("Baylor") == "6";
    ExampleText();
  }

  // ---------------------------------------------------------------------
  // Decoding

  /** The stream constructor: userId, longitude, latitude, then length and text twice. */
  function RecordFrom(s: seq<Item>): Parsed<LocationRecord> {
    var u := UnsignedInt(s);
    if u.result.Fail? then Failed(u) else
    var lo := SignedDouble(u.rest);
    if lo.result.Fail? then Failed(lo) else
    var la := SignedDouble(lo.rest);
    if la.result.Fail? then Failed(la) else
    var nl := UnsignedInt(la.rest);
    if nl.result.Fail? then Failed(nl) else
    var n := Fixed(nl.rest, nl.result.value);
    if n.result.Fail? then Failed(n) else
    var dl := UnsignedInt(n.rest);
    if dl.result.Fail? then Failed(dl) else
    var d := Fixed(dl.rest, dl.result.value);
    if d.result.Fail? then Failed(d) else
    Parsed(Ok(LocationRecord(u.result.value, lo.result.value, la.result.value,
                             n.result.value, d.result.value)), d.rest)
  }

  /** The stream constructor reads the fields straight into the record, bypassing the setters. */
  method ReadRecord(inp: MessageInput) returns (r: Result<LocationRecord>)
    requires inp.Valid()
    modifies inp`pos
    ensures inp.Valid() && Parsed(r, inp.Remaining()) == RecordFrom(old(inp.Remaining()))
  {
    var userId := inp.ReadUnsignedInt();
    if userId.Fail? { return Fail(userId.failure); }
    var longitude := inp.ReadSignedDouble();
    if longitude.Fail? { return Fail(longitude.failure); }
    var latitude := inp.ReadSignedDouble();
    if latitude.Fail? { return Fail(latitude.failure); }
    var nameLength := inp.ReadUnsignedInt();
    if nameLength.Fail? { return Fail(nameLength.failure); }
    var name := inp.ReadFixedString(nameLength.value);
    if name.Fail? { return Fail(name.failure); }
    var descriptionLength := inp.ReadUnsignedInt();
    if descriptionLength.Fail? { return Fail(descriptionLength.failure); }
    var description := inp.ReadFixedString(descriptionLength.value);
    if description.Fail? { return Fail(description.failure); }
    r := Ok(LocationRecord(userId.value, longitude.value, latitude.value, name.value, description.value));
  }

  /**
   * Records whose text reads back as the same record: coordinates that match
   * the signed-double pattern, and ASCII name and description, whose
   * String.length() is then their byte count.
   */
  predicate Encodable(r: LocationRecord) {
    IsValidSignedDouble(r.longitude) && IsValidSignedDouble(r.latitude) &&
    IsAscii(r.name) && IsAscii(r.description) && |r.name| < TWO31 && |r.description| < TWO31
  }

  /** readUnsignedInt on the length prefix of ASCII text gives its length. */
  lemma LengthOfText(t: string, u: string, r: seq<Item>)
    requires IsAscii(t) && |t| < TWO31
    ensures UnsignedInt(Ascii(LengthText(t) + " " + u) + r) == Parsed(Ok(|t| as int32), Ascii(u) + r)
  {
    AsciiJavaLength(t);
    assert LengthText(t) == UnsignedToDecimal(|t| as int32);
    UnsignedIntOfText(|t| as int32, u, r);
  }

  /** A length prefix and the text it counts read back as that text. */
  lemma LengthPrefixedOfText(t: string, u: string, r: seq<Item>)
    requires IsAscii(t) && |t| < TWO31
    ensures var len := UnsignedInt(Ascii(LengthText(t) + " " + (t + u)) + r);
      len == Parsed(Ok(|t| as int32), Ascii(t + u) + r) &&
      Fixed(len.rest, len.result.value) == Parsed(Ok(t), Ascii(u) + r)
  {
    LengthOfText(t, t + u, r);
    FixedOfText(t, u, r);
  }

  /**
   * The stream constructor reads back exactly what encode wrote and stops
   * right after the description, so records can follow one another.
   */
  lemma RecordRoundTrip(rec: LocationRecord, rest: seq<Item>)
    requires Encodable(rec)
    ensures RecordFrom(Ascii(RecordText(rec)) + rest) == Parsed(Ok(rec), rest)
  {
    var t5 := LengthText(rec.description) + " " + rec.description;
    var t3 := LengthText(rec.name) + " " + (rec.name + t5);
    var t2 := rec.latitude + " " + t3;
    var t1 := rec.longitude + " " + t2;
    var s := Ascii(RecordText(rec)) + rest;
    UnsignedIntOfText(rec.userId, t1, rest);
    var u := UnsignedInt(s);
    assert u == Parsed(Ok(rec.userId), Ascii(t1) + rest);
    SignedDoubleOfText(rec.longitude, t2, rest);
    var lo := SignedDouble(u.rest);
    assert lo == Parsed(Ok(rec.longitude), Ascii(t2) + rest);
    SignedDoubleOfText(rec.latitude, t3, rest);
    var la := SignedDouble(lo.rest);
    assert la == Parsed(Ok(rec.latitude), Ascii(t3) + rest);
    LengthPrefixedOfText(rec.name, t5, rest);
    var nl := UnsignedInt(la.rest);
    var n := Fixed(nl.rest, nl.result.value);
    assert n == Parsed(Ok(rec.name), Ascii(t5) + rest);
    assert rec.description + "" == rec.description;
    LengthPrefixedOfText(rec.description, "", rest);
    assert Ascii("") + rest == rest;
  }

  /** Reading a record never gives input back. */
  lemma RecordFromProgress(s: seq<Item>)
    ensures |RecordFrom(s).rest| <= |s|
  {
    var u := UnsignedInt(s);
    UnsignedIntProgress(s);
    if u.result.Ok? {
      var lo := SignedDouble(u.rest);
      SignedDoubleProgress(u.rest);
      if lo.result.Ok? {
        var la := SignedDouble(lo.rest);
        SignedDoubleProgress(lo.rest);
        if la.result.Ok? {
          var nl := UnsignedInt(la.rest);
          UnsignedIntProgress(la.rest);
          if nl.result.Ok? {
            var n := Fixed(nl.rest, nl.result.value);
            FixedProgress(nl.rest, nl.result.value);
            if n.result.Ok? {
              var dl := UnsignedInt(n.rest);
              UnsignedIntProgress(n.rest);
              if dl.result.Ok? {
                FixedProgress(dl.rest, dl.result.value);
              }
            }
          }
        }
      }
    }
  }

  /** A record read from the stream may hold a user id that setUserId refuses. */
  lemma StreamBypassesSetters(rec: LocationRecord)
    requires Encodable(rec) && rec.userId < 0
    ensures RecordFrom(Ascii(RecordText(rec))).result == Ok(rec)
    ensures SetUserId(rec, rec.userId).Fail?
  {
    RecordRoundTrip(rec, []);
    assert Ascii(RecordText(rec)) + [] == Ascii(RecordText(rec));
  }

  // ---------------------------------------------------------------------
  // Equality

  /** equals: the user ids compared unsigned, then the four strings. */
  predicate RecordEquals(a: LocationRecord, b: LocationRecord) {
    ToUnsigned(a.userId) == ToUnsigned(b.userId) &&
    a.longitude == b.longitude && a.latitude == b.latitude &&
    a.name == b.name && a.description == b.description
  }

  /** equals is structural equality over all five fields. */
  lemma RecordEqualsIsEquality(a: LocationRecord, b: LocationRecord)
    ensures RecordEquals(a, b) <==> a == b
  {
    if ToUnsigned(a.userId) == ToUnsigned(b.userId) {
      assert Wrap32(ToUnsigned(a.userId)) == a.userId;
      assert Wrap32(ToUnsigned(b.userId)) == b.userId;
    }
  }
}
