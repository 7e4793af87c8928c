/**
 * MessageInput, the reader of the AddATude text protocol: a cursor over the
 * bytes an InputStream delivers. Every primitive the codec uses is written
 * twice: as a function over the remaining input (what the read means) and as a
 * method of MessageInput that reads byte by byte, as the source does, and is
 * proved to agree with the function.
 */
module TextInput {
  import opened JavaLang

  /**
   * One thing InputStream.read() can meet: a byte, or a failure of the
   * underlying stream (an IOException, for instance a socket timeout), which
   * is consumed like a byte.
   */
  const IO_FAULT: int := -2
  type Item = x: int | x == IO_FAULT || 0 <= x < 256

  /** What InputStream.read() returns at end of input. */
  const EOF: int := -1

  const SPACE: byte := 32
  const CR: byte := 13
  const LF: byte := 10

  /** The character `(char) -1` that readString(int) appends for every byte read past the end. */
  const EOF_CHAR: char := 0xFFFF as char

  /** The exceptions a read or a decode can end in. */
  datatype Failure =
    | Eof                                        // EOFException
    | Parse(ioCause: bool)                       // AddATudeException; ioCause: caused by an IOException
    | Version(message: string)                   // AddATudeVersionException
    | Operation(mapId: int32, message: string)   // AddATudeOperationException, with the mapId already read

  datatype Result<+T> = Ok(value: T) | Fail(failure: Failure)

  /** The outcome of a read together with the input left after it. */
  datatype Parsed<+T> = Parsed(result: Result<T>, rest: seq<Item>)

  /** Passes a failure on with its own remaining input. */
  function Failed<A, B>(p: Parsed<A>): (q: Parsed<B>)
    requires p.result.Fail?
    ensures q.result.Fail? && q.result.failure == p.result.failure && q.rest == p.rest
  {
    Parsed(Fail(p.result.failure), p.rest)
  }

  // ---------------------------------------------------------------------
  // Specification of the primitives, over the remaining input

  /** The space-terminated token reader, with the characters read so far in acc. */
  function TokenFrom(s: seq<Item>, acc: string): Parsed<string>
    decreases |s|
  {
    if s == [] then Parsed(Fail(Eof), [])
    else if s[0] == IO_FAULT then Parsed(Fail(Parse(true)), s[1..])
    else if s[0] == SPACE as int then Parsed(Ok(acc), s[1..])
    else TokenFrom(s[1..], acc + [s[0] as char])
  }

  /** readString(): the characters before the first space; the space is consumed. */
  function Token(s: seq<Item>): Parsed<string> {
    TokenFrom(s, "")
  }

  /** readUnsignedInt(): a token parsed by Integer.parseUnsignedInt. */
  function UnsignedInt(s: seq<Item>): Parsed<int32> {
    var p := Token(s);
    if p.result.Fail? then Failed(p)
    else match ParseUnsignedInt(p.result.value)
      case Some(v) => Parsed(Ok(v), p.rest)
      case None => Parsed(Fail(Parse(false)), p.rest)
  }

  /** readSignedDouble(): a token that must match ^[-+]?[0-9]*\.?[0-9]+$, kept as text. */
  function SignedDouble(s: seq<Item>): Parsed<string> {
    var p := Token(s);
    if p.result.Fail? then Failed(p)
    else if IsValidSignedDouble(p.result.value) then p
    else Parsed(Fail(Parse(false)), p.rest)
  }

  /** readString(length) with n reads still to do and the characters read so far in acc. */
  function FixedFrom(s: seq<Item>, n: nat, acc: string): Parsed<string>
    decreases n
  {
    if n == 0 then Parsed(Ok(acc), s)
    else if s == [] then FixedFrom([], n - 1, acc + [EOF_CHAR])
    else if s[0] == IO_FAULT then Parsed(Fail(Parse(true)), s[1..])
    else FixedFrom(s[1..], n - 1, acc + [s[0] as char])
  }

  /** readString(length): exactly length reads (compared unsigned), no delimiter. */
  function Fixed(s: seq<Item>, length: int32): Parsed<string> {
    FixedFrom(s, ToUnsigned(length), "")
  }

  /** purge("\r\n") with prevCR telling whether the last byte read was CR. */
  function PurgeFrom(s: seq<Item>, prevCR: bool): Parsed<()>
    decreases |s|
  {
    if s == [] then Parsed(Fail(Eof), [])
    else if s[0] == IO_FAULT then Parsed(Fail(Parse(true)), s[1..])
    else if prevCR && s[0] == LF as int then Parsed(Ok(()), s[1..])
    else PurgeFrom(s[1..], s[0] == CR as int)
  }

  /** purge("\r\n"): discards everything up to and including the first CR LF. */
  function PurgeToEoln(s: seq<Item>): Parsed<()> {
    PurgeFrom(s, false)
  }

  // ---------------------------------------------------------------------
  // The signed-double pattern ^[-+]?[0-9]*\.?[0-9]+$

  /** The part after an optional leading sign. */
  function Unsigned(s: string): string {
    if 0 < |s| && (s[0] == '-' || s[0] == '+') then s[1..] else s
  }

  /** `[0-9]*\.?[0-9]+`, matched against the whole string. */
  predicate IsDecimalNumber(r: string) {
    (0 < |r| && AllDigits(r)) ||
    (exists i :: 0 <= i < |r| - 1 && r[i] == '.' && AllDigits(r[..i]) && AllDigits(r[i + 1..]))
  }

  /** MessageInput.isValidSignedDouble. */
  predicate IsValidSignedDouble(s: string) {
    IsDecimalNumber(Unsigned(s))
  }

  /** Text matching the pattern holds only signs, digits and a point: ASCII, and no space. */
  lemma SignedDoubleChars(s: string)
    requires IsValidSignedDouble(s)
    ensures IsAscii(s)
    ensures forall i :: 0 <= i < |s| ==> s[i] != ' '
  {
    var r := Unsigned(s);
    DecimalChars(r);
    var off := |s| - |r|;
    forall i | 0 <= i < |s| ensures s[i] as int < 128 && s[i] != ' ' {
      if i >= off {
        assert s[i] == r[i - off];
      }
    }
  }

  /** A decimal number holds only digits and a point. */
  lemma DecimalChars(r: string)
    requires IsDecimalNumber(r)
    ensures forall i :: 0 <= i < |r| ==> IsDigit(r[i]) || r[i] == '.'
  {
    if !(0 < |r| && AllDigits(r)) {
      var k :| 0 <= k < |r| - 1 && r[k] == '.' && AllDigits(r[..k]) && AllDigits(r[k + 1..]);
      forall i | 0 <= i < |r| ensures IsDigit(r[i]) || r[i] == '.' {
        if i < k { assert r[..k][i] == r[i]; }
        else if i > k { assert r[k + 1..][i - k - 1] == r[i]; }
      }
    }
  }

  // ---------------------------------------------------------------------
  // What the primitives mean

  /** Items of a byte sequence that holds no space. */
  predicate NoSpace(b: seq<byte>) {
    forall i :: 0 <= i < |b| ==> b[i] != SPACE
  }

  /** A token is the bytes before the first space, read as characters; the space is consumed. */
  lemma {:induction false} TokenFromBytes(b: seq<byte>, r: seq<Item>, acc: string)
    requires NoSpace(b)
    ensures TokenFrom(b + [SPACE as int] + r, acc) == Parsed(Ok(acc + Latin1(b)), r)
    decreases |b|
  {
    if b == [] {
      assert [SPACE as int] + r == b + [SPACE as int] + r;
      assert acc + Latin1(b) == acc;
    } else {
      var s := b + [SPACE as int] + r;
      assert s[1..] == b[1..] + [SPACE as int] + r;
      TokenFromBytes(b[1..], r, acc + [b[0] as char]);
      assert acc + [b[0] as char] + Latin1(b[1..]) == acc + Latin1(b);
    }
  }

  lemma TokenOfBytes(b: seq<byte>, r: seq<Item>)
    requires NoSpace(b)
    ensures Token(b + [SPACE as int] + r) == Parsed(Ok(Latin1(b)), r)
  {
    TokenFromBytes(b, r, "");
    assert "" + Latin1(b) == Latin1(b);
  }

  /** Input without a space or a fault runs into end of input: EOFException, everything consumed. */
  lemma {:induction false} TokenFromAtEnd(s: seq<Item>, acc: string)
    requires forall i :: 0 <= i < |s| ==> s[i] != SPACE as int && s[i] != IO_FAULT
    ensures TokenFrom(s, acc) == Parsed(Fail(Eof), [])
    decreases |s|
  {
    if s != [] {
      TokenFromAtEnd(s[1..], acc + [s[0] as char]);
    }
  }

  /**
   * readUnsignedInt consumes up to and including the first space and parses
   * what came before it as an unsigned decimal; an empty or non-numeric token
   * is an AddATudeException (not EOFException).
   */
  lemma UnsignedIntOfBytes(b: seq<byte>, r: seq<Item>)
    requires NoSpace(b)
    ensures var p := UnsignedInt(b + [SPACE as int] + r);
      p.rest == r &&
      match ParseUnsignedInt(Latin1(b))
        case Some(v) => p.result == Ok(v)
        case None => p.result == Fail(Parse(false))
  {
    TokenOfBytes(b, r);
  }

  /** Reaching end of input before a space makes readUnsignedInt fail with EOFException. */
  lemma UnsignedIntAtEnd(s: seq<Item>)
    requires forall i :: 0 <= i < |s| ==> s[i] != SPACE as int && s[i] != IO_FAULT
    ensures UnsignedInt(s) == Parsed(Fail(Eof), [])
  {
    TokenFromAtEnd(s, "");
  }

  /** readSignedDouble returns the token text verbatim iff it matches the pattern. */
  lemma SignedDoubleOfBytes(b: seq<byte>, r: seq<Item>)
    requires NoSpace(b)
    ensures var p := SignedDouble(b + [SPACE as int] + r);
      p.rest == r &&
      (p.result.Ok? <==> IsValidSignedDouble(Latin1(b))) &&
      (p.result.Ok? ==> p.result.value == Latin1(b)) &&
      (p.result.Fail? ==> p.result.failure == Parse(false))
  {
    TokenOfBytes(b, r);
  }

  /** readString(length) reads exactly length bytes; each byte past the end becomes (char) -1. */
  lemma {:induction false} FixedFromBytes(b: seq<byte>, r: seq<Item>, n: nat, acc: string)
    requires |b| <= n
    requires |b| < n ==> r == []
    ensures FixedFrom(b + r, n, acc) ==
      Parsed(Ok(acc + Latin1(b) + seq(n - |b|, _ => EOF_CHAR)), if |b| < n then [] else r)
    decreases n
  {
    if n == 0 {
      assert b == [] && b + r == r;
      assert acc + Latin1(b) + seq(0, _ => EOF_CHAR) == acc;
    } else if b == [] {
      assert r == [] && b + r == [];
      assert Latin1(b) == [];
      FixedFromBytes([], [], n - 1, acc + [EOF_CHAR]);
      var tail := seq(n - 1, _ => EOF_CHAR);
      assert FixedFrom([], n - 1, acc + [EOF_CHAR]) == Parsed(Ok(acc + [EOF_CHAR] + Latin1([]) + tail), []);
      assert FixedFrom(b + r, n, acc) == FixedFrom([], n - 1, acc + [EOF_CHAR]);
      assert [EOF_CHAR] + tail == seq(n, _ => EOF_CHAR);
      assert acc + [EOF_CHAR] + Latin1([]) + tail == acc + Latin1(b) + seq(n - |b|, _ => EOF_CHAR);
    } else {
      var s := b + r;
      assert s[1..] == b[1..] + r;
      FixedFromBytes(b[1..], r, n - 1, acc + [b[0] as char]);
      assert acc + [b[0] as char] + Latin1(b[1..]) == acc + Latin1(b);
    }
  }

  /** On text encoded as ASCII, readString(length) with the text's length gives the text back. */
  lemma FixedOfAscii(t: string, r: seq<Item>)
    requires IsAscii(t) && |t| < TWO31
    ensures Fixed(Ascii(t) + r, |t|) == Parsed(Ok(t), r)
  {
    FixedFromBytes(Ascii(t), r, |t|, "");
    AsciiLatin1(t);
    assert "" + Latin1(Ascii(t)) + seq(0, _ => EOF_CHAR) == t;
  }

  /** readString(length) never reports end of input: at the end it pads with (char) -1. */
  lemma FixedAtEnd(length: int32)
    ensures Fixed([], length) == Parsed(Ok(seq(ToUnsigned(length), _ => EOF_CHAR)), [])
  {
    FixedFromBytes([], [], ToUnsigned(length), "");
    assert "" + Latin1([]) + seq(ToUnsigned(length), _ => EOF_CHAR) == seq(ToUnsigned(length), _ => EOF_CHAR);
  }

  /** Whether the bytes hold no CR LF pair and no fault. */
  predicate NoEoln(s: seq<Item>) {
    (forall i :: 0 <= i < |s| ==> s[i] != IO_FAULT) &&
    (forall i :: 0 < i < |s| ==> !(s[i - 1] == CR as int && s[i] == LF as int))
  }

  /**
   * purge leaves the cursor just after the first CR LF: when b holds no CR LF
   * (and does not end in CR), purging b + CR LF + r leaves r.
   */
  lemma {:induction false} PurgeFromBytes(b: seq<Item>, r: seq<Item>, prevCR: bool)
    requires NoEoln(b)
    requires prevCR ==> (b == [] || b[0] != LF as int)
    requires b != [] ==> b[|b| - 1] != CR as int
    requires !prevCR || b != []
    ensures PurgeFrom(b + [CR as int, LF as int] + r, prevCR) == Parsed(Ok(()), r)
    decreases |b|
  {
    var s := b + [CR as int, LF as int] + r;
    if b == [] {
      assert s[1..] == [LF as int] + r;
      assert PurgeFrom(s[1..], true) == Parsed(Ok(()), r) by {
        assert ([LF as int] + r)[1..] == r;
      }
    } else {
      assert s[1..] == b[1..] + [CR as int, LF as int] + r;
      assert NoEoln(b[1..]) by {
        forall i | 0 < i < |b[1..]| ensures !(b[1..][i - 1] == CR as int && b[1..][i] == LF as int) {
          assert b[1..][i - 1] == b[i] && b[1..][i] == b[i + 1];
        }
      }
      PurgeFromBytes(b[1..], r, b[0] == CR as int);
    }
  }

  lemma PurgeOfBytes(b: seq<Item>, r: seq<Item>)
    requires NoEoln(b)
    requires b != [] ==> b[|b| - 1] != CR as int
    ensures PurgeToEoln(b + [CR as int, LF as int] + r) == Parsed(Ok(()), r)
  {
    PurgeFromBytes(b, r, false);
  }

  /** purge on input that never holds CR LF consumes everything and raises EOFException. */
  lemma {:induction false} PurgeFromAtEnd(s: seq<Item>, prevCR: bool)
    requires NoEoln(s)
    requires prevCR ==> (s == [] || s[0] != LF as int)
    ensures PurgeFrom(s, prevCR) == Parsed(Fail(Eof), [])
    decreases |s|
  {
    if s != [] {
      assert NoEoln(s[1..]) by {
        forall i | 0 < i < |s[1..]| ensures !(s[1..][i - 1] == CR as int && s[1..][i] == LF as int) {
          assert s[1..][i - 1] == s[i] && s[1..][i] == s[i + 1];
        }
      }
      if |s| > 1 { assert !(s[0] == CR as int && s[1] == LF as int); }
      PurgeFromAtEnd(s[1..], s[0] == CR as int);
    }
  }

  lemma PurgeAtEnd(s: seq<Item>)
    requires NoEoln(s)
    ensures PurgeToEoln(s) == Parsed(Fail(Eof), [])
  {
    PurgeFromAtEnd(s, false);
  }

  /** No character of the text is a space. */
  predicate SpaceFree(t: string) {
    forall i :: 0 <= i < |t| ==> t[i] != ' '
  }

  /** Decimal digits are ASCII and hold no space. */
  lemma DigitsAreTokenText(t: string)
    requires AllDigits(t)
    ensures IsAscii(t) && SpaceFree(t)
  {
    assert forall i :: 0 <= i < |t| ==> IsDigit(t[i]);
  }

  /** Reading a token from the ASCII encoding of `t + " " + u` gives t and leaves the encoding of u. */
  lemma TokenOfText(t: string, u: string, r: seq<Item>)
    requires IsAscii(t) && SpaceFree(t)
    ensures Token(Ascii(t + " " + u) + r) == Parsed(Ok(t), Ascii(u) + r)
  {
    AsciiConcat(t + " ", u);
    AsciiConcat(t, " ");
    assert Ascii(" ") == [SPACE];
    assert NoSpace(Ascii(t)) by {
      forall i | 0 <= i < |t| ensures Ascii(t)[i] != SPACE {
        assert Ascii(t)[i] == t[i] as int;
      }
    }
    assert Ascii(t + " " + u) + r == Ascii(t) + [SPACE as int] + (Ascii(u) + r);
    TokenOfBytes(Ascii(t), Ascii(u) + r);
    AsciiLatin1(t);
  }

  /** readUnsignedInt on the unsigned decimal text of x followed by a space gives x back. */
  lemma UnsignedIntOfText(x: int32, u: string, r: seq<Item>)
    ensures UnsignedInt(Ascii(UnsignedToDecimal(x) + " " + u) + r) == Parsed(Ok(x), Ascii(u) + r)
  {
    DigitsAreTokenText(UnsignedToDecimal(x));
    TokenOfText(UnsignedToDecimal(x), u, r);
    ParseUnsignedDecimal(x);
  }

  /** readSignedDouble on text matching the pattern, followed by a space, gives the text back. */
  lemma SignedDoubleOfText(t: string, u: string, r: seq<Item>)
    requires IsValidSignedDouble(t)
    ensures SignedDouble(Ascii(t + " " + u) + r) == Parsed(Ok(t), Ascii(u) + r)
  {
    SignedDoubleChars(t);
    TokenOfText(t, u, r);
  }

  /** readString(|t|) on the ASCII encoding of `t + u` gives t and leaves the encoding of u. */
  lemma FixedOfText(t: string, u: string, r: seq<Item>)
    requires IsAscii(t) && |t| < TWO31
    ensures Fixed(Ascii(t + u) + r, |t|) == Parsed(Ok(t), Ascii(u) + r)
  {
    AsciiConcat(t, u);
    assert Ascii(t + u) + r == Ascii(t) + (Ascii(u) + r);
    FixedOfAscii(t, Ascii(u) + r);
  }

  /** No read ever gives input back, and a token read or a purge on non-empty input consumes at least one byte. */
  lemma {:induction false} TokenFromProgress(s: seq<Item>, acc: string)
    ensures |TokenFrom(s, acc).rest| <= |s|
    ensures s != [] ==> |TokenFrom(s, acc).rest| < |s|
    decreases |s|
  {
    if s != [] && s[0] != IO_FAULT && s[0] != SPACE as int {
      TokenFromProgress(s[1..], acc + [s[0] as char]);
    }
  }

  lemma {:induction false} FixedFromProgress(s: seq<Item>, n: nat, acc: string)
    ensures |FixedFrom(s, n, acc).rest| <= |s|
    decreases n
  {
    if n > 0 {
      if s == [] { FixedFromProgress([], n - 1, acc + [EOF_CHAR]); }
      else if s[0] != IO_FAULT { FixedFromProgress(s[1..], n - 1, acc + [s[0] as char]); }
    }
  }

  lemma {:induction false} PurgeFromProgress(s: seq<Item>, prevCR: bool)
    ensures |PurgeFrom(s, prevCR).rest| <= |s|
    ensures s != [] ==> |PurgeFrom(s, prevCR).rest| < |s|
    decreases |s|
  {
    if s != [] && s[0] != IO_FAULT && !(prevCR && s[0] == LF as int) {
      PurgeFromProgress(s[1..], s[0] == CR as int);
    }
  }

  lemma UnsignedIntProgress(s: seq<Item>)
    ensures |UnsignedInt(s).rest| <= |s|
  {
    TokenFromProgress(s, "");
  }

  lemma SignedDoubleProgress(s: seq<Item>)
    ensures |SignedDouble(s).rest| <= |s|
  {
    TokenFromProgress(s, "");
  }

  lemma FixedProgress(s: seq<Item>, length: int32)
    ensures |Fixed(s, length).rest| <= |s|
  {
    FixedFromProgress(s, ToUnsigned(length), "");
  }

  // ---------------------------------------------------------------------
  // The reader object

  /** MessageInput: the wrapped stream's bytes and how far reading has got. */
  class MessageInput {
    const data: seq<Item>
    var pos: nat

    ghost predicate Valid()
      reads this
    {
      pos <= |data|
    }

    /** The bytes not yet read. */
    function Remaining(): seq<Item>
      reads this
      requires Valid()
    {
      data[pos..]
    }

    constructor (data: seq<Item>)
      ensures Valid() && this.data == data && pos == 0
    {
      this.data := data;
      pos := 0;
    }

    /**
     * InputStream.read(): the next byte, or EOF (-1) at end of input without
     * moving; IO_FAULT stands for the IOException the read throws.
     */
    method Read() returns (b: int)
      requires Valid()
      modifies this`pos
      ensures Valid()
      ensures old(Remaining()) == [] ==> b == EOF && Remaining() == []
      ensures old(Remaining()) != [] ==> b == old(Remaining())[0] && Remaining() == old(Remaining())[1..]
    {
      if pos == |data| {
        b := EOF;
      } else {
        b := data[pos];
        pos := pos + 1;
      }
    }

    /** readString(): bytes up to the next space, which is consumed. */
    method ReadString() returns (r: Result<string>)
      requires Valid()
      modifies this`pos
      ensures Valid() && Parsed(r, Remaining()) == Token(old(Remaining()))
    {
      var acc := "";
      while true
        invariant Valid() && TokenFrom(Remaining(), acc) == Token(old(Remaining()))
        decreases |Remaining()|
      {
        var b := Read();
        if b == IO_FAULT {
          return Fail(Parse(true));
        } else if b == EOF {
          return Fail(Eof);
        } else if b == SPACE as int {
          return Ok(acc);
        }
        acc := acc + [b as char];
      }
    }

    /** readUnsignedInt(): a space-terminated token parsed by Integer.parseUnsignedInt. */
    method ReadUnsignedInt() returns (r: Result<int32>)
      requires Valid()
      modifies this`pos
      ensures Valid() && Parsed(r, Remaining()) == UnsignedInt(old(Remaining()))
    {
      var t := ReadString();
      if t.Fail? {
        return Fail(t.failure);
      }
      var v := ParseUnsignedInt(t.value);
      if v.None? {
        return Fail(Parse(false));
      }
      r := Ok(v.value);
    }

    /** readSignedDouble(): a space-terminated token that must match the signed-double pattern. */
    method ReadSignedDouble() returns (r: Result<string>)
      requires Valid()
      modifies this`pos
      ensures Valid() && Parsed(r, Remaining()) == SignedDouble(old(Remaining()))
    {
      r := ReadString();
      if r.Ok? && !IsValidSignedDouble(r.value) {
        r := Fail(Parse(false));
      }
    }

    /** readString(length): exactly length reads, unsigned, with (char) -1 for each read past the end. */
    method ReadFixedString(length: int32) returns (r: Result<string>)
      requires Valid()
      modifies this`pos
      ensures Valid() && Parsed(r, Remaining()) == Fixed(old(Remaining()), length)
    {
      var acc := "";
      var n := ToUnsigned(length);
      for i := 0 to n
        invariant Valid() && FixedFrom(Remaining(), n - i, acc) == Fixed(old(Remaining()), length)
      {
        var b := Read();
        if b == IO_FAULT {
          return Fail(Parse(true));
        }
        acc := acc + [if b == EOF then EOF_CHAR else b as char];
      }
      r := Ok(acc);
    }

    /** purge("\r\n"): discards bytes up to and including the next CR LF. */
    method Purge() returns (r: Result<()>)
      requires Valid()
      modifies this`pos
      ensures Valid() && Parsed(r, Remaining()) == PurgeToEoln(old(Remaining()))
    {
      var prevCR := false;
      while true
        invariant Valid() && PurgeFrom(Remaining(), prevCR) == PurgeToEoln(old(Remaining()))
        decreases |Remaining()|
      {
        var b := Read();
        if b == IO_FAULT {
          return Fail(Parse(true));
        } else if b == EOF {
          return Fail(Eof);
        } else if prevCR && b == LF as int {
          return Ok(());
        }
        prevCR := b == CR as int;
      }
    }
  }
}
