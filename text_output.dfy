/**
 * MessageOutput, the writer of the AddATude text protocol: an append-only
 * byte sink that takes strings and writes their ASCII encoding.
 */
module TextOutput {
  import opened JavaLang
  import opened TextInput

  /** What the wrapped OutputStream has accepted so far. */
  class MessageOutput {
    var written: seq<byte>
    /** Whether every write of the wrapped stream throws IOException (a closed or reset socket). */
    const broken: bool

    constructor (broken: bool)
      ensures written == [] && this.broken == broken
    {
      written := [];
      this.broken := broken;
    }

    /**
     * write(s): appends s.getBytes("ASCII"), one byte per character; a failure
     * of the wrapped stream becomes an AddATudeException caused by the
     * IOException, and nothing is appended.
     */
    method Write(s: string) returns (r: Result<()>)
      modifies this`written
      ensures !broken ==> r == Ok(()) && written == old(written) + Ascii(s)
      ensures broken ==> r == Fail(Parse(true)) && written == old(written)
    {
      if broken {
        return Fail(Parse(true));
      }
      written := written + Ascii(s);
      r := Ok(());
    }
  }

  /** Two writes in a row leave the same bytes as one write of the concatenated text. */
  lemma WritesConcatenate(before: seq<byte>, a: string, b: string)
    ensures before + Ascii(a) + Ascii(b) == before + Ascii(a + b)
  {
    AsciiConcat(a, b);
  }
}
