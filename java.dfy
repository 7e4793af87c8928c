/**
 * The handful of Java library behaviours that both wire protocols depend on:
 * 32-bit int wrap-around, decimal printing and Integer.parseUnsignedInt,
 * String.length() counted in UTF-16 units, and String.getBytes("ASCII").
 */
module JavaLang {

  /** An unsigned byte value, as InputStream.read() and readUnsignedByte() return it. */
  type byte = x: int | 0 <= x < 256

  /** A Java int. */
  type int32 = x: int | -0x8000_0000 <= x < 0x8000_0000

  const TWO31: int := 0x8000_0000
  const TWO32: int := 0x1_0000_0000

  datatype Option<+T> = None | Some(value: T)

  /** The Java int whose 32-bit pattern is the unsigned value n. */
  function Wrap32(n: int): (r: int32)
    requires 0 <= n < TWO32
    ensures 0 <= r <==> n < TWO31
    ensures r % TWO32 == n
  {
    if n < TWO31 then n else n - TWO32
  }

  /** The unsigned reading of a Java int's bit pattern (Integer.toUnsignedLong). */
  function ToUnsigned(x: int32): (n: nat)
    ensures n < TWO32
    ensures Wrap32(n) == x
  {
    if x < 0 then x + TWO32 else x
  }

  lemma UnsignedOfWrap(n: int)
    requires 0 <= n < TWO32
    ensures ToUnsigned(Wrap32(n)) == n
  {
  }

  // ---------------------------------------------------------------------
  // Decimal digits

  predicate IsDigit(c: char) {
    '0' <= c <= '9'
  }

  predicate AllDigits(s: string) {
    forall i :: 0 <= i < |s| ==> IsDigit(s[i])
  }

  function DigitChar(d: nat): (c: char)
    requires d < 10
    ensures IsDigit(c)
  {
    (d + '0' as int) as char
  }

  function DigitValue(c: char): (d: nat)
    requires IsDigit(c)
    ensures d < 10
  {
    (c as int) - ('0' as int)
  }

  /** The numeric value of a string of decimal digits, most significant first. */
  function DecimalValue(s: string): nat
    requires AllDigits(s)
  {
    if s == [] then 0 else 10 * DecimalValue(s[..|s| - 1]) + DigitValue(s[|s| - 1])
  }

  /** Decimal text of a non-negative number, without leading zeros. */
  function NatToDecimal(n: nat): (s: string)
    ensures 0 < |s|
    ensures AllDigits(s)
    ensures |s| > 1 ==> s[0] != '0'
    decreases n
  {
    if n < 10 then [DigitChar(n)] else NatToDecimal(n / 10) + [DigitChar(n % 10)]
  }

  /**
   * Integer.toString(int) and string concatenation of an int: a leading '-'
   * exactly when negative, then the decimal digits of the magnitude.
   */
  function IntToDecimal(x: int): (s: string)
    ensures 0 < |s| && (s[0] == '-' <==> x < 0)
    ensures var digits := if x < 0 then s[1..] else s;
      0 < |digits| && AllDigits(digits) && DecimalValue(digits) == (if x < 0 then -x else x)
  {
    var magnitude := if x < 0 then -x else x;
    DecimalRoundTrip(magnitude);
    var digits := NatToDecimal(magnitude);
    if x < 0 then "-" + digits else digits
  }

  /** Integer.toUnsignedString(int). */
  function UnsignedToDecimal(x: int32): string {
    NatToDecimal(ToUnsigned(x))
  }

  lemma {:induction false} DecimalRoundTrip(n: nat)
    ensures DecimalValue(NatToDecimal(n)) == n
    decreases n
  {
    if n >= 10 {
      var s := NatToDecimal(n);
      assert s[..|s| - 1] == NatToDecimal(n / 10);
      DecimalRoundTrip(n / 10);
    }
  }

  /** The part of an unsigned-int token after its optional leading '+'. */
  function DigitsAfterPlus(s: string): string {
    if 0 < |s| && s[0] == '+' then s[1..] else s
  }

  /**
   * Integer.parseUnsignedInt(s): an optional '+', then one or more decimal
   * digits (leading zeros allowed) whose value is below 2^32; the value is
   * returned as the Java int with that bit pattern, so values of 2^31 or more
   * come back negative. None stands for NumberFormatException.
   */
  function ParseUnsignedInt(s: string): (r: Option<int32>)
    ensures r.Some? <==>
      (var d := DigitsAfterPlus(s); 0 < |d| && AllDigits(d) && DecimalValue(d) < TWO32)
    ensures r.Some? ==> ToUnsigned(r.value) == DecimalValue(DigitsAfterPlus(s))
    ensures r.Some? ==> (r.value < 0 <==> DecimalValue(DigitsAfterPlus(s)) >= TWO31)
  {
    var d := DigitsAfterPlus(s);
    if 0 < |d| && AllDigits(d) && DecimalValue(d) < TWO32 then Some(Wrap32(DecimalValue(d))) else None
  }

  /** Printing a value as unsigned decimal and parsing it back gives the same Java int. */
  lemma ParseUnsignedDecimal(x: int32)
    ensures ParseUnsignedInt(UnsignedToDecimal(x)) == Some(x)
  {
    var s := UnsignedToDecimal(x);
    assert DigitsAfterPlus(s) == s;
    DecimalRoundTrip(ToUnsigned(x));
  }

  // ---------------------------------------------------------------------
  // Strings

  /** String.length(): the number of UTF-16 code units. */
  function JavaLength(s: string): (n: nat)
    ensures |s| <= n <= 2 * |s|
  {
    if s == [] then 0 else (if s[0] as int >= 0x1_0000 then 2 else 1) + JavaLength(s[1..])
  }

  predicate IsAscii(s: string) {
    forall i :: 0 <= i < |s| ==> s[i] as int < 128
  }

  lemma {:induction false} AsciiJavaLength(s: string)
    requires IsAscii(s)
    ensures JavaLength(s) == |s|
  {
    if s != [] {
      assert IsAscii(s[1..]) by {
        forall i | 0 <= i < |s[1..]| ensures s[1..][i] as int < 128 {
          assert s[1..][i] == s[i + 1];
        }
      }
      AsciiJavaLength(s[1..]);
    }
  }

  /** One character through String.getBytes("ASCII"): unmappable characters become '?'. */
  function AsciiByte(c: char): (b: byte)
    ensures c as int < 128 ==> b == c as int
    ensures c as int >= 128 ==> b == '?' as int
  {
    if c as int < 128 then c as int else '?' as int
  }

  /** String.getBytes("ASCII"): one byte per character. */
  function Ascii(s: string): (b: seq<byte>)
    ensures |b| == |s|
  {
    seq(|s|, i requires 0 <= i < |s| => AsciiByte(s[i]))
  }

  /** Concatenation regrouped one step to the right. */
  lemma Assoc<T>(a: seq<T>, b: seq<T>, c: seq<T>)
    ensures a + b + c == a + (b + c)
  {
  }

  lemma AsciiConcat(a: string, b: string)
    ensures Ascii(a + b) == Ascii(a) + Ascii(b)
  {
    assert forall i :: 0 <= i < |a + b| ==> Ascii(a + b)[i] == (Ascii(a) + Ascii(b))[i];
  }

  /** The characters that (char) casts of the given bytes produce. */
  function Latin1(bs: seq<byte>): (s: string)
    ensures |s| == |bs|
  {
    seq(|bs|, i requires 0 <= i < |bs| => bs[i] as char)
  }

  /** ASCII text survives getBytes("ASCII") followed by (char) casts of the bytes. */
  lemma AsciiLatin1(s: string)
    requires IsAscii(s)
    ensures Latin1(Ascii(s)) == s
  {
    assert forall i :: 0 <= i < |s| ==> Latin1(Ascii(s))[i] == s[i];
  }

  function Reverse<T>(s: seq<T>): (r: seq<T>)
    ensures |r| == |s|
    ensures forall i :: 0 <= i < |s| ==> r[i] == s[|s| - 1 - i]
  {
    if s == [] then [] else Reverse(s[1..]) + [s[0]]
  }

  lemma ReverseReverse<T>(s: seq<T>)
    ensures Reverse(Reverse(s)) == s
  {
    assert forall i :: 0 <= i < |s| ==> Reverse(Reverse(s))[i] == s[i];
  }
}
