/**
 * The NoTiFi binary location record and the DataInput/DataOutput byte
 * orders it is written in: a 2-byte big-endian user id, two IEEE-754 doubles
 * written least significant byte first, and two strings each preceded by a
 * one-byte length.
 */
module NoTiFiRecord {
  import opened JavaLang

  // ---------------------------------------------------------------------
  // Byte orders

  function Pow256(n: nat): (p: nat)
    ensures p > 0
  {
    if n == 0 then 1 else 256 * Pow256(n - 1)
  }

  /** The value DataInput reads from these bytes, most significant first (readUnsignedShort, readLong). */
  function BigEndian(bs: seq<byte>): (n: nat)
    ensures n < Pow256(|bs|)
  {
    if bs == [] then 0 else BigEndian(bs[..|bs| - 1]) * 256 + bs[|bs| - 1]
  }

  /** The n bytes DataOutput writes for x, most significant first (writeShort, writeLong). */
  function ToBigEndian(x: nat, n: nat): (bs: seq<byte>)
    ensures |bs| == n
  {
    if n == 0 then [] else ToBigEndian(x / 256, n - 1) + [x % 256]
  }

  lemma {:induction false} BigEndianOfBytes(x: nat, n: nat)
    requires x < Pow256(n)
    ensures BigEndian(ToBigEndian(x, n)) == x
  {
    if n > 0 {
      var bs := ToBigEndian(x, n);
      assert bs[..n - 1] == ToBigEndian(x / 256, n - 1);
      BigEndianOfBytes(x / 256, n - 1);
    }
  }

  lemma {:induction false} BytesOfBigEndian(bs: seq<byte>)
    ensures ToBigEndian(BigEndian(bs), |bs|) == bs
  {
    if bs != [] {
      var init := bs[..|bs| - 1];
      BytesOfBigEndian(init);
      assert bs == init + [bs[|bs| - 1]];
    }
  }

  // ---------------------------------------------------------------------
  // Doubles, kept as their 64-bit patterns

  const TWO64: int := 0x1_0000_0000_0000_0000

  type Bits64 = x: int | 0 <= x < TWO64

  /** The pattern Double.doubleToLongBits gives every NaN. */
  const NAN_BITS: Bits64 := 0x7ff8_0000_0000_0000

  /** A NaN: all exponent bits set and a non-zero fraction. */
  predicate IsNaN(x: Bits64) {
    (x / 0x10_0000_0000_0000) % 0x800 == 0x7ff && x % 0x10_0000_0000_0000 != 0
  }

  /** Double.doubleToLongBits(Double.longBitsToDouble(x)): every NaN collapses to one pattern. */
  function Canonical(x: Bits64): (r: Bits64)
    ensures IsNaN(r) <==> IsNaN(x)
    ensures !IsNaN(x) ==> r == x
  {
    if IsNaN(x) then NAN_BITS else x
  }

  lemma CanonicalIdempotent(x: Bits64)
    ensures Canonical(Canonical(x)) == Canonical(x)
  {
  }

  /** Long.reverseBytes of a pattern: the value of its 8 big-endian bytes read in reverse. */
  function ReverseBytes(x: Bits64): (r: Bits64)
  {
    BigEndianOfBytes(x, 8);
    assert Pow256(8) == TWO64;
    BigEndian(Reverse(ToBigEndian(x, 8)))
  }

  lemma ReverseBytesInvolutive(x: Bits64)
    ensures ReverseBytes(ReverseBytes(x)) == x
  {
    assert Pow256(8) == TWO64;
    var bs := ToBigEndian(x, 8);
    BytesOfBigEndian(Reverse(bs));
    ReverseReverse(bs);
    BigEndianOfBytes(x, 8);
  }

  /** writeLong(Long.reverseBytes(Double.doubleToLongBits(d))). */
  function DoubleBytes(x: Bits64): (bs: seq<byte>)
    ensures |bs| == 8
  {
    ToBigEndian(ReverseBytes(Canonical(x)), 8)
  }

  /** Double.longBitsToDouble(Long.reverseBytes(readLong())), as a pattern. */
  function DoubleOf(bs: seq<byte>): Bits64
    requires |bs| == 8
  {
    assert Pow256(8) == TWO64;
    ReverseBytes(BigEndian(bs))
  }

  /** The 8 bytes hold the pattern least significant byte first. */
  lemma DoubleBytesLittleEndian(x: Bits64)
    ensures DoubleBytes(x) == Reverse(ToBigEndian(Canonical(x), 8))
  {
    assert Pow256(8) == TWO64;
    var bs := Reverse(ToBigEndian(Canonical(x), 8));
    BytesOfBigEndian(bs);
  }

  lemma DoubleRoundTrip(x: Bits64)
    ensures DoubleOf(DoubleBytes(x)) == Canonical(x)
  {
    assert Pow256(8) == TWO64;
    BigEndianOfBytes(ReverseBytes(Canonical(x)), 8);
    ReverseBytesInvolutive(Canonical(x));
  }

  lemma DoubleBytesOf(bs: seq<byte>)
    requires |bs| == 8 && !IsNaN(DoubleOf(bs))
    ensures DoubleBytes(DoubleOf(bs)) == bs
  {
    assert Pow256(8) == TWO64;
    ReverseBytesInvolutive(BigEndian(bs));
    BytesOfBigEndian(bs);
  }

  // ---------------------------------------------------------------------
  // The record

  type UserId = x: int | 0 <= x < 0x1_0000

  datatype LocationRecord = LocationRecord(
    userId: UserId,
    longitude: Bits64,
    latitude: Bits64,
    name: string,
    description: string)

  /** What the setters guarantee of every record they let through. */
  predicate Valid(r: LocationRecord) {
    JavaLength(r.name) <= 255 && JavaLength(r.description) <= 255
  }

  /** A record whose strings survive getBytes("ASCII"), so that its encoding can be read back. */
  predicate Encodable(r: LocationRecord) {
    Valid(r) && IsAscii(r.name) && IsAscii(r.description)
  }

  /** Failures of the binary codec: IOException or IllegalArgumentException, with the source's message. */
  datatype Fault = IOError(message: string) | Illegal(message: string)

  datatype Outcome<+T> = Success(value: T) | Failure(fault: Fault)

  /** setUserId: the value must fit in the low 16 bits of an int. */
  function SetUserId(r: LocationRecord, userId: int32): (res: Outcome<LocationRecord>)
    ensures res.Success? <==> 0 <= userId < 0x1_0000
    ensures res.Success? ==> res.value == r.(userId := userId)
  {
    if HighBitsSet(userId, 0x1_0000) then Failure(Illegal("User ID greater than 2 bytes in setter."))
    else Success(r.(userId := userId))
  }

  /**
   * (x & mask) != 0 for the masks 0xFFFF0000 and 0xFFFFFF00: some bit of the
   * int's pattern at or above the one worth low is set.
   */
  predicate HighBitsSet(x: int32, low: nat)
    requires low > 0
  {
    ToUnsigned(x) / low != 0
  }

  /** setLocationName: null and names longer than 255 UTF-16 units are refused. */
  function SetLocationName(r: LocationRecord, name: Option<string>): (res: Outcome<LocationRecord>)
    ensures res.Success? <==> name.Some? && JavaLength(name.value) <= 255
    ensures res.Success? ==> res.value == r.(name := name.value)
    ensures Valid(r) && res.Success? ==> Valid(res.value)
  {
    if name.None? then Failure(Illegal("Null location name in setter."))
    else if JavaLength(name.value) > 255 then Failure(Illegal("Name length greater than 255 characters."))
    else Success(r.(name := name.value))
  }

  /** setLocationDescription: null and descriptions longer than 255 UTF-16 units are refused. */
  function SetLocationDescription(r: LocationRecord, description: Option<string>): (res: Outcome<LocationRecord>)
    ensures res.Success? <==> description.Some? && JavaLength(description.value) <= 255
    ensures res.Success? ==> res.value == r.(description := description.value)
    ensures Valid(r) && res.Success? ==> Valid(res.value)
  {
    if description.None? then Failure(Illegal("Null location description in setter."))
    else if JavaLength(description.value) > 255 then Failure(Illegal("Description length greater than 255 characters."))
    else Success(r.(description := description.value))
  }

  /**
   * The value constructor: the setters in order, the first refusal wins.
   * setLongitude and setLatitude accept every double.
   */
  function MakeRecord(userId: int32, longitude: Bits64, latitude: Bits64,
                      name: Option<string>, description: Option<string>): (res: Outcome<LocationRecord>)
    ensures res.Success? <==>
      0 <= userId < 0x1_0000 && name.Some? && JavaLength(name.value) <= 255
      && description.Some? && JavaLength(description.value) <= 255
    ensures res.Success? ==>
      Valid(res.value) && res.value == LocationRecord(userId, longitude, latitude, name.value, description.value)
  {
    var start := LocationRecord(0, longitude, latitude, "", "");
    var r1 := SetUserId(start, userId);
    if r1.Failure? then r1 else
    var r2 := SetLocationName(r1.value, name);
    if r2.Failure? then r2 else
    SetLocationDescription(r2.value, description)
  }

  /** writeByte(s.length()) then s.getBytes("ASCII"). */
  function StringBytes(s: string): (bs: seq<byte>)
    ensures |bs| == 1 + |s|
  {
    [JavaLength(s) % 256] + Ascii(s)
  }

  /** encode(out): the bytes one record adds to the stream. */
  function RecordBytes(r: LocationRecord): (bs: seq<byte>)
    ensures |bs| == 20 + |r.name| + |r.description|
  {
    ToBigEndian(r.userId, 2) + (DoubleBytes(r.longitude) + (DoubleBytes(r.latitude) +
      (StringBytes(r.name) + StringBytes(r.description))))
  }

  /** The record with both doubles as doubleToLongBits reports them. */
  function Canonicalized(r: LocationRecord): LocationRecord {
    r.(longitude := Canonical(r.longitude), latitude := Canonical(r.latitude))
  }

  /** The outcome of reading one record, and the bytes after it. */
  datatype Reading<+T> = Got(value: T, rest: seq<byte>) | Threw(fault: Fault)

  /** readUnsignedShort; an EOFException when fewer than two bytes remain. */
  function UnsignedShortFrom(bs: seq<byte>): (r: Reading<UserId>)
    ensures r.Got? ==> |bs| >= 2 && r.rest == bs[2..]
  {
    assert Pow256(2) == 0x1_0000;
    if |bs| < 2 then Threw(IOError("")) else Got(BigEndian(bs[..2]), bs[2..])
  }

  /** Double.longBitsToDouble(Long.reverseBytes(readLong())). */
  function DoubleFrom(bs: seq<byte>): (r: Reading<Bits64>)
    ensures r.Got? ==> |bs| >= 8 && r.rest == bs[8..]
  {
    if |bs| < 8 then Threw(IOError("")) else Got(DoubleOf(bs[..8]), bs[8..])
  }

  /** readUnsignedByte, readFully of that many bytes, and new String of them, one character per byte. */
  function StringFrom(bs: seq<byte>): (r: Reading<string>)
    ensures r.Got? ==> JavaLength(r.value) <= 255 && |bs| >= 1 + |r.value| && r.rest == bs[1 + |r.value|..]
  {
    if |bs| < 1 || |bs| < 1 + bs[0] as int then Threw(IOError(""))
    else
      Latin1JavaLength(bs[1..1 + bs[0]]);
      Got(Latin1(bs[1..1 + bs[0]]), bs[1 + bs[0]..])
  }

  /**
   * The DataInput constructor: the user id, the longitude, the latitude, the
   * name and the description, in that order; running out of bytes anywhere
   * is an EOFException.
   */
  function RecordFrom(bs: seq<byte>): (r: Reading<LocationRecord>)
    ensures r.Got? ==> Valid(r.value) && |r.rest| <= |bs| - 20
  {
    match UnsignedShortFrom(bs)
    case Threw(f) => Threw(f)
    case Got(userId, bs1) =>
      match DoubleFrom(bs1)
      case Threw(f) => Threw(f)
      case Got(longitude, bs2) =>
        match DoubleFrom(bs2)
        case Threw(f) => Threw(f)
        case Got(latitude, bs3) =>
          match StringFrom(bs3)
          case Threw(f) => Threw(f)
          case Got(name, bs4) =>
            match StringFrom(bs4)
            case Threw(f) => Threw(f)
            case Got(description, bs5) =>
              Got(LocationRecord(userId, longitude, latitude, name, description), bs5)
  }

  lemma {:induction false} Latin1JavaLength(bs: seq<byte>)
    ensures JavaLength(Latin1(bs)) == |bs|
  {
    if bs != [] {
      assert Latin1(bs)[1..] == Latin1(bs[1..]);
      Latin1JavaLength(bs[1..]);
    }
  }

  /** Every record the stream constructor builds would also pass the setters one by one. */
  lemma DecodedPassesSetters(bs: seq<byte>)
    requires RecordFrom(bs).Got?
    ensures var r := RecordFrom(bs).value;
      MakeRecord(r.userId, r.longitude, r.latitude, Some(r.name), Some(r.description)) == Success(r)
  {
  }

  lemma UnsignedShortRoundTrip(x: UserId, rest: seq<byte>)
    ensures UnsignedShortFrom(ToBigEndian(x, 2) + rest) == Got(x, rest)
  {
    var bs := ToBigEndian(x, 2) + rest;
    assert bs[..2] == ToBigEndian(x, 2);
    BigEndianOfBytes(x, 2);
  }

  lemma DoubleFromRoundTrip(x: Bits64, rest: seq<byte>)
    ensures DoubleFrom(DoubleBytes(x) + rest) == Got(Canonical(x), rest)
  {
    assert (DoubleBytes(x) + rest)[..8] == DoubleBytes(x);
    DoubleRoundTrip(x);
  }

  lemma StringRoundTrip(s: string, rest: seq<byte>)
    requires IsAscii(s) && |s| <= 255
    ensures StringFrom(StringBytes(s) + rest) == Got(s, rest)
  {
    var bs := StringBytes(s) + rest;
    AsciiJavaLength(s);
    assert bs[1..1 + |s|] == Ascii(s);
    AsciiLatin1(s);
  }

  /** Reading back what encode wrote gives the record, with each double as doubleToLongBits reports it. */
  lemma RecordRoundTrip(r: LocationRecord, rest: seq<byte>)
    requires Encodable(r)
    ensures RecordFrom(RecordBytes(r) + rest) == Got(Canonicalized(r), rest)
  {
    AsciiJavaLength(r.name);
    AsciiJavaLength(r.description);
    var e := StringBytes(r.description);
    var d := StringBytes(r.name);
    var c := DoubleBytes(r.latitude);
    var b := DoubleBytes(r.longitude);
    var a := ToBigEndian(r.userId, 2);
    Assoc(d, e, rest);
    Assoc(c, d + e, rest);
    Assoc(b, c + (d + e), rest);
    Assoc(a, b + (c + (d + e)), rest);
    UnsignedShortRoundTrip(r.userId, b + (c + (d + (e + rest))));
    DoubleFromRoundTrip(r.longitude, c + (d + (e + rest)));
    DoubleFromRoundTrip(r.latitude, d + (e + rest));
    StringRoundTrip(r.name, e + rest);
    StringRoundTrip(r.description, rest);
  }

  lemma UnsignedShortBytes(bs: seq<byte>)
    requires UnsignedShortFrom(bs).Got?
    ensures ToBigEndian(UnsignedShortFrom(bs).value, 2) + UnsignedShortFrom(bs).rest == bs
  {
    BytesOfBigEndian(bs[..2]);
    assert bs == bs[..2] + bs[2..];
  }

  lemma DoubleFromBytes(bs: seq<byte>)
    requires DoubleFrom(bs).Got? && !IsNaN(DoubleFrom(bs).value)
    ensures DoubleBytes(DoubleFrom(bs).value) + DoubleFrom(bs).rest == bs
  {
    DoubleBytesOf(bs[..8]);
    assert bs == bs[..8] + bs[8..];
  }

  lemma StringFromBytes(bs: seq<byte>)
    requires StringFrom(bs).Got? && IsAscii(StringFrom(bs).value)
    ensures StringBytes(StringFrom(bs).value) + StringFrom(bs).rest == bs
  {
    var n := bs[0] as int;
    AsciiOfLatin1(bs[1..1 + n]);
    AsciiJavaLength(StringFrom(bs).value);
    assert bs == [bs[0]] + bs[1..1 + n] + bs[1 + n..];
  }

  lemma UnsignedShortPrefix(bs: seq<byte>, more: seq<byte>)
    requires UnsignedShortFrom(bs).Got?
    ensures UnsignedShortFrom(bs + more) == Got(UnsignedShortFrom(bs).value, UnsignedShortFrom(bs).rest + more)
  {
    assert (bs + more)[..2] == bs[..2];
    assert (bs + more)[2..] == bs[2..] + more;
  }

  lemma DoublePrefix(bs: seq<byte>, more: seq<byte>)
    requires DoubleFrom(bs).Got?
    ensures DoubleFrom(bs + more) == Got(DoubleFrom(bs).value, DoubleFrom(bs).rest + more)
  {
    assert (bs + more)[..8] == bs[..8];
    assert (bs + more)[8..] == bs[8..] + more;
  }

  lemma StringPrefix(bs: seq<byte>, more: seq<byte>)
    requires StringFrom(bs).Got?
    ensures StringFrom(bs + more) == Got(StringFrom(bs).value, StringFrom(bs).rest + more)
  {
    var n := bs[0] as int;
    assert (bs + more)[1..1 + n] == bs[1..1 + n];
    assert (bs + more)[1 + n..] == bs[1 + n..] + more;
  }

  /** Reading a record looks only at its own bytes: input after them changes nothing but the rest. */
  lemma RecordPrefix(bs: seq<byte>, more: seq<byte>)
    requires RecordFrom(bs).Got?
    ensures RecordFrom(bs + more) == Got(RecordFrom(bs).value, RecordFrom(bs).rest + more)
  {
    var s1 := UnsignedShortFrom(bs);
    var s2 := DoubleFrom(s1.rest);
    var s3 := DoubleFrom(s2.rest);
    var s4 := StringFrom(s3.rest);
    UnsignedShortPrefix(bs, more);
    DoublePrefix(s1.rest, more);
    DoublePrefix(s2.rest, more);
    StringPrefix(s3.rest, more);
    StringPrefix(s4.rest, more);
  }

  /** Bytes whose strings are ASCII and whose doubles are not NaN are exactly what encode writes for the record read from them. */
  lemma {:induction false} EncodeOfDecode(bs: seq<byte>)
    requires RecordFrom(bs).Got?
    requires IsAscii(RecordFrom(bs).value.name) && IsAscii(RecordFrom(bs).value.description)
    requires !IsNaN(RecordFrom(bs).value.longitude) && !IsNaN(RecordFrom(bs).value.latitude)
    ensures RecordBytes(RecordFrom(bs).value) + RecordFrom(bs).rest == bs
  {
    var s1 := UnsignedShortFrom(bs);
    var s2 := DoubleFrom(s1.rest);
    var s3 := DoubleFrom(s2.rest);
    var s4 := StringFrom(s3.rest);
    var s5 := StringFrom(s4.rest);
    UnsignedShortBytes(bs);
    DoubleFromBytes(s1.rest);
    DoubleFromBytes(s2.rest);
    StringFromBytes(s3.rest);
    StringFromBytes(s4.rest);
    var a, b, c, d, e := ToBigEndian(s1.value, 2), DoubleBytes(s2.value), DoubleBytes(s3.value),
      StringBytes(s4.value), StringBytes(s5.value);
    Assoc(d, e, s5.rest);
    Assoc(c, d + e, s5.rest);
    Assoc(b, c + (d + e), s5.rest);
    Assoc(a, b + (c + (d + e)), s5.rest);
  }

  lemma AsciiOfLatin1(bs: seq<byte>)
    requires IsAscii(Latin1(bs))
    ensures Ascii(Latin1(bs)) == bs
  {
    assert forall i :: 0 <= i < |bs| ==> Ascii(Latin1(bs))[i] == bs[i];
  }

  /**
   * equals: user ids, both doubles by Double.compare (which is 0 exactly when
   * doubleToLongBits agree) and both strings.
   */
  predicate RecordEquals(a: LocationRecord, b: LocationRecord) {
    a.userId == b.userId
    && Canonical(a.longitude) == Canonical(b.longitude)
    && Canonical(a.latitude) == Canonical(b.latitude)
    && a.name == b.name && a.description == b.description
  }

  lemma SameBytesEqual(a: LocationRecord, b: LocationRecord)
    requires Encodable(a) && Encodable(b) && RecordBytes(a) == RecordBytes(b)
    ensures RecordEquals(a, b)
  {
    RecordRoundTrip(a, []);
    RecordRoundTrip(b, []);
    assert RecordBytes(a) + [] == RecordBytes(b) + [];
  }

  /** Two encodable records are equal exactly when they encode to the same bytes. */
  lemma RecordEqualsIffSameBytes(a: LocationRecord, b: LocationRecord)
    requires Encodable(a) && Encodable(b)
    ensures RecordEquals(a, b) <==> RecordBytes(a) == RecordBytes(b)
  {
    if RecordBytes(a) == RecordBytes(b) {
      SameBytesEqual(a, b);
    }
  }

  /** Encoding first canonicalises the doubles, so it cannot tell a record from its canonical form. */
  lemma EncodeIgnoresNaNPayload(r: LocationRecord)
    ensures RecordBytes(Canonicalized(r)) == RecordBytes(r)
  {
    CanonicalIdempotent(r.longitude);
    CanonicalIdempotent(r.latitude);
  }
}
