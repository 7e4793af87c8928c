/**
 * The frame assembler of the asynchronous AddATude server
 * (AddATudeAIODispatcher): bytes arrive in a 1024-byte read buffer, are
 * copied to a local array, cut at the first CR LF into one frame for the
 * handler, and the rest is moved back to the start of the read buffer.
 * Replies queue in a write list that is pruned as the channel drains it.
 */
module FrameAssembler {
  import opened JavaLang
  import opened TextInput
  import opened TextMessage
  import opened MapServer

  /** BUFSIZE: the capacity of the read buffer and the size of the local array. */
  const BUFSIZE: nat := 1024

  /**
   * What the dispatcher asks of the channel next: a read, a gathering
   * write, closing it, or nothing at all because an exception escaped the
   * completion handler (no further callback is ever registered).
   */
  datatype Action = Read | Write | Close | Stall

  /** A ByteBuffer in the write list: its bytes and how many of them the channel has taken. */
  datatype OutBuffer = OutBuffer(data: seq<byte>, position: nat)

  /** hasRemaining(). */
  predicate HasRemaining(b: OutBuffer) {
    b.position < |b.data|
  }

  // ---------------------------------------------------------------------
  // Finding the end of a frame

  /** A CR at i - 1 followed by an LF at i. */
  predicate CrlfEndsAt(bs: seq<byte>, i: int) {
    1 <= i < |bs| && bs[i - 1] == CR && bs[i] == LF
  }

  /** The scan from index i on: one past the first CR LF ending at i or later, or -1. */
  function ScanFrom(bs: seq<byte>, i: nat): (pos: int)
    requires 1 <= i
    ensures pos == -1 || (i + 1 <= pos <= |bs| && CrlfEndsAt(bs, pos - 1))
    ensures forall j :: i <= j < (if pos == -1 then |bs| else pos - 1) ==> !CrlfEndsAt(bs, j)
    decreases |bs| - i
  {
    if i >= |bs| then -1
    else if CrlfEndsAt(bs, i) then i + 1
    else ScanFrom(bs, i + 1)
  }

  /**
   * getEOLNPosition over the buffered bytes: one past the first CR LF, so
   * that the frame includes its terminator, or -1 when there is none.
   */
  function EolnPosition(bs: seq<byte>): (pos: int)
    ensures pos == -1 || (2 <= pos <= |bs| && CrlfEndsAt(bs, pos - 1))
    ensures pos == -1 <==> forall j :: !CrlfEndsAt(bs, j)
    ensures pos != -1 ==> forall j :: j < pos - 1 ==> !CrlfEndsAt(bs, j)
  {
    ScanFrom(bs, 1)
  }

  /** How handleRead splits the buffered bytes: no complete frame yet, or the first frame and what follows it. */
  datatype Split = NoFrame | Frame(frame: seq<byte>, leftover: seq<byte>)

  function SplitFrame(bs: seq<byte>): Split {
    var pos := EolnPosition(bs);
    if pos == -1 then NoFrame else Frame(bs[..pos], bs[pos..])
  }

  /**
   * A frame and its leftover make up the buffered bytes, the frame ends in
   * CR LF and holds no earlier CR LF, and no frame is cut from bytes
   * without one.
   */
  lemma SplitFrameShape(bs: seq<byte>)
    ensures SplitFrame(bs).NoFrame? <==> forall j :: !CrlfEndsAt(bs, j)
    ensures var s := SplitFrame(bs);
      s.Frame? ==>
        s.frame + s.leftover == bs && |s.frame| >= 2 &&
        s.frame[|s.frame| - 2] == CR && s.frame[|s.frame| - 1] == LF &&
        forall j :: j < |s.frame| - 1 ==> !CrlfEndsAt(s.frame, j)
  {
    var s := SplitFrame(bs);
    if s.Frame? {
      assert s.frame + s.leftover == bs;
      forall j | j < |s.frame| - 1
        ensures !CrlfEndsAt(s.frame, j)
      {
        assert CrlfEndsAt(s.frame, j) ==> CrlfEndsAt(bs, j);
      }
    }
  }

  /** A text ending in its only CR LF, followed by anything, is cut off exactly as it was written. */
  lemma FrameOfText(t: string, rest: seq<byte>)
    requires |t| >= 2 && t[|t| - 2..] == EOLN
    requires forall j :: j < |t| - 1 ==> !CrlfEndsAt(Ascii(t), j)
    ensures SplitFrame(Ascii(t) + rest) == Frame(Ascii(t), rest)
  {
    var bs := Ascii(t) + rest;
    var n := |t|;
    assert t[n - 2] == '\r' && t[n - 1] == '\n';
    assert CrlfEndsAt(bs, n - 1);
    forall j | j < n - 1
      ensures !CrlfEndsAt(bs, j)
    {
      assert CrlfEndsAt(bs, j) ==> CrlfEndsAt(Ascii(t), j);
    }
    assert bs[..n] == Ascii(t) && bs[n..] == rest;
  }

  /**
   * One well-formed message whose text holds no CR LF before its terminator
   * is cut off whole and decodes back to the message.
   */
  lemma MessageFrame(m: Message, rest: seq<byte>)
    requires EncodableMessage(m)
    requires forall j :: j < |MessageText(m)| - 1 ==> !CrlfEndsAt(Ascii(MessageText(m)), j)
    ensures SplitFrame(Ascii(MessageText(m)) + rest) == Frame(Ascii(MessageText(m)), rest)
    ensures MessageFrom(Ascii(MessageText(m))).result == Ok(m)
  {
    var t := MessageText(m);
    assert t == HeaderText(m.mapId) + OperationText(m) + EOLN;
    assert t[|t| - 2..] == EOLN;
    FrameOfText(t, rest);
    MessageRoundTrip(m, []);
    assert Ascii(t) + [] == Ascii(t);
  }

  // ---------------------------------------------------------------------
  // The put at the end of handleRead, as written

  /**
   * put(localBuffer, pos, limit) copies limit bytes starting at pos, so it
   * reads past the local array unless pos + limit fits in it.
   */
  predicate PutInBoundsAsWritten(pos: int, limit: int) {
    0 <= pos && pos + limit <= BUFSIZE
  }

  /** A full buffer whose first line is empty: the frame is found, and the put as written overruns. */
  lemma PutOverrun()
    ensures var bs := [CR, LF] + seq(BUFSIZE - 2, _ => 'A' as byte);
      |bs| == BUFSIZE && SplitFrame(bs) == Frame([CR, LF], bs[2..]) &&
      !PutInBoundsAsWritten(EolnPosition(bs), |bs|)
  {
    var bs := [CR, LF] + seq(BUFSIZE - 2, _ => 'A' as byte);
    assert CrlfEndsAt(bs, 1);
    assert bs[..2] == [CR, LF];
  }

  // ---------------------------------------------------------------------
  // handleWrite's pruning

  /** The write list without its fully written buffers at the front. */
  function Pruned(list: seq<OutBuffer>): (r: seq<OutBuffer>)
    ensures r == [] || HasRemaining(r[0])
    ensures |r| <= |list|
    ensures forall i :: 0 <= i < |list| - |r| ==> !HasRemaining(list[i])
  {
    if list == [] || HasRemaining(list[0]) then list else Pruned(list[1..])
  }

  /** What pruning keeps is the list's tail, untouched. */
  lemma {:induction false} PrunedIsSuffix(list: seq<OutBuffer>)
    ensures Pruned(list) == list[|list| - |Pruned(list)|..]
    decreases |list|
  {
    if list != [] && !HasRemaining(list[0]) {
      PrunedIsSuffix(list[1..]);
      assert list[1..][|list| - 1 - |Pruned(list)|..] == list[|list| - |Pruned(list)|..];
    }
  }

  /** A fully written buffer at the front is pruned. */
  lemma PrunedStep(list: seq<OutBuffer>)
    requires list != [] && !HasRemaining(list[0])
    ensures Pruned(list) == Pruned(list[1..])
  {
  }

  /** A list that is empty or starts with unsent bytes is left as it is. */
  lemma PrunedDone(list: seq<OutBuffer>)
    requires list == [] || HasRemaining(list[0])
    ensures Pruned(list) == list
  {
  }

  /** Every buffer with bytes still to send survives pruning, in its place. */
  lemma PrunedKeepsUnsent(list: seq<OutBuffer>, i: nat)
    requires i < |list| && HasRemaining(list[i])
    ensures i >= |list| - |Pruned(list)| && Pruned(list)[i - (|list| - |Pruned(list)|)] == list[i]
  {
    PrunedIsSuffix(list);
  }

  // ---------------------------------------------------------------------
  // The dispatcher

  class Dispatcher {
    /** The handler every frame is passed to. */
    const handler: MapRegistry
    /** readBuffer's backing store; position and limit are the ByteBuffer's. */
    const readBuffer: array<byte>
    var position: nat
    var limit: nat
    /** localBuffer: where handleRead copies the buffered bytes to. */
    const localBuffer: array<byte>
    /** writeBufferList. */
    var writeList: seq<OutBuffer>

    ghost predicate Valid()
      reads this
    {
      readBuffer.Length == BUFSIZE && localBuffer.Length == BUFSIZE && readBuffer != localBuffer &&
      position <= limit <= BUFSIZE
    }

    /** The bytes waiting for handleRead: the read buffer up to its position. */
    function Buffered(): seq<byte>
      reads this, readBuffer
      requires Valid()
    {
      readBuffer[..position]
    }

    constructor (handler: MapRegistry)
      ensures Valid() && fresh(readBuffer) && fresh(localBuffer)
      ensures this.handler == handler && Buffered() == [] && limit == BUFSIZE && writeList == []
    {
      this.handler := handler;
      readBuffer := new byte[BUFSIZE];
      localBuffer := new byte[BUFSIZE];
      position := 0;
      limit := BUFSIZE;
      writeList := [];
    }

    /** handleAccept: nothing to write, so the first read is requested. */
    method HandleAccept() returns (next: Action)
      modifies this`writeList
      ensures next == Read && writeList == old(writeList)
    {
      next := ProcessWriteBuffer(None);
    }

    /**
     * The channel's read: the bytes that arrived are put at the buffer's
     * position, and no more than its limit allows.
     */
    method Receive(bytes: seq<byte>)
      requires Valid() && |bytes| <= limit - position
      modifies readBuffer, this`position
      ensures Valid() && limit == old(limit)
      ensures Buffered() == old(Buffered()) + bytes
    {
      forall i | 0 <= i < |bytes| {
        readBuffer[position + i] := bytes[i];
      }
      position := position + |bytes|;
    }

    /**
     * processWriteBuffer: a non-empty reply is queued and a write
     * requested; no reply, or an empty one, requests a read.
     */
    method ProcessWriteBuffer(buf: Option<seq<byte>>) returns (next: Action)
      modifies this`writeList
      ensures buf.Some? && |buf.value| > 0 ==> writeList == old(writeList) + [OutBuffer(buf.value, 0)] && next == Write
      ensures !(buf.Some? && |buf.value| > 0) ==> writeList == old(writeList) && next == Read
    {
      if buf.Some? && |buf.value| > 0 {
        writeList := writeList + [OutBuffer(buf.value, 0)];
        next := Write;
      } else {
        next := Read;
      }
    }

    /** getEOLNPosition: the scan with a found flag over localBuffer up to the limit. */
    method GetEolnPosition() returns (pos: int)
      requires Valid()
      ensures pos == EolnPosition(localBuffer[..limit])
    {
      ghost var bs := localBuffer[..limit];
      pos := -1;
      var found := false;
      var i := 1;
      while i < limit && !found
        invariant 1 <= i <= if limit == 0 then 1 else limit
        invariant found ==> pos == i && 2 <= pos && CrlfEndsAt(bs, pos - 1)
        invariant forall j :: 1 <= j < (if found then i - 1 else i) ==> !CrlfEndsAt(bs, j)
        invariant !found ==> pos == -1
      {
        if localBuffer[i - 1] == CR && localBuffer[i] == LF {
          pos := i + 1;
          found := true;
        }
        i := i + 1;
      }
      assert !found ==> forall j :: !CrlfEndsAt(bs, j);
    }

    /** flip() then get(localBuffer, 0, limit): the buffered bytes copied to the local array. */
    method CopyOut()
      requires Valid()
      modifies localBuffer, this`position, this`limit
      ensures Valid() && position == limit == old(position)
      ensures localBuffer[..limit] == old(Buffered()) && readBuffer[..] == old(readBuffer[..])
    {
      limit := position;
      position := 0;
      forall i | 0 <= i < limit {
        localBuffer[i] := readBuffer[i];
      }
      position := limit;
    }

    /**
     * The first half of handleRead: flip, copy to the local array, scan.
     * The frame, if any, is localBuffer up to and including its CR LF.
     */
    method TakeFrame() returns (pos: int)
      requires Valid()
      modifies localBuffer, this`position, this`limit
      ensures Valid() && position == limit == |old(Buffered())| && readBuffer[..] == old(readBuffer[..])
      ensures localBuffer[..limit] == old(Buffered())
      ensures pos == EolnPosition(old(Buffered()))
      ensures SplitFrame(old(Buffered())).Frame? ==>
        pos != -1 && localBuffer[..pos] == SplitFrame(old(Buffered())).frame
    {
      CopyOut();
      pos := GetEolnPosition();
    }

    /** The leftover after a frame, moved to the start of the read buffer, as intended: limit - pos bytes. */
    method KeepLeftover(pos: int)
      requires Valid() && position == limit && 2 <= pos <= limit
      modifies readBuffer, this`position, this`limit
      ensures Valid() && Buffered() == old(localBuffer[pos..limit]) && limit == position
    {
      position := 0;
      var length := limit - pos;
      forall i | 0 <= i < length {
        readBuffer[i] := localBuffer[pos + i];
      }
      position := length;
      limit := length;
    }

    /**
     * The leftover after a frame as written: put(localBuffer, pos, limit)
     * throws IndexOutOfBoundsException (ok is false, and position has been
     * reset) when the copy passes the end of the local array; otherwise it
     * copies limit bytes, and limit(limit - pos) pulls position back so that
     * only the leftover counts.
     */
    method KeepLeftoverAsWritten(pos: int) returns (ok: bool)
      requires Valid() && position == limit && 2 <= pos <= limit
      modifies readBuffer, this`position, this`limit
      ensures Valid()
      ensures ok <==> PutInBoundsAsWritten(pos, old(limit))
      ensures ok ==> Buffered() == old(localBuffer[pos..limit]) && limit == position
    {
      position := 0;
      if pos + limit > BUFSIZE {
        return false;
      }
      forall i | 0 <= i < limit {
        readBuffer[i] := localBuffer[pos + i];
      }
      position := limit;
      limit := limit - pos;
      position := limit;
      ok := true;
    }

    /**
     * handleRead, with the leftover copied as intended: at most one frame
     * goes to the handler; the bytes after it move to the start of the read
     * buffer with position and limit both at their end; without a frame
     * everything is kept and the next read appends after it. A null reply
     * from the handler, or an exception out of its updateMap, throws out of
     * the completion handler.
     */
    method HandleRead() returns (next: Action)
      requires Valid()
      modifies readBuffer, localBuffer, this`position, this`limit, this`writeList, handler`locations, handler`notices
      ensures Valid()
      ensures SplitFrame(old(Buffered())).NoFrame? ==>
        next == Read && Buffered() == old(Buffered()) && limit == BUFSIZE && writeList == old(writeList) &&
        handler.locations == old(handler.locations) && handler.notices == old(handler.notices)
      ensures SplitFrame(old(Buffered())).Frame? ==>
        var split := SplitFrame(old(Buffered()));
        var step := Handled(old(handler.locations), handler.directory, handler.listening, MessageFrom(split.frame).result);
        handler.locations == step.locations && handler.notices == old(handler.notices) + step.notices &&
        (!step.reply.Send? ==> next == Stall) &&
        (step.reply.Send? ==>
          next == Write && writeList == old(writeList) + [OutBuffer(ReplyBytes(step.reply).value, 0)] &&
          Buffered() == split.leftover && limit == position)
    {
      ghost var bs := Buffered();
      var pos := TakeFrame();
      var buf: Option<seq<byte>> := None;
      if pos != -1 {
        buf := handler.HandleMessage(localBuffer[..pos]);
        if buf.None? {
          return Stall;
        }
        KeepLeftover(pos);
      } else {
        position := limit;
        limit := BUFSIZE;
      }
      next := ProcessWriteBuffer(buf);
    }

    /**
     * handleRead as written: when the put overruns the local array the
     * handler has already answered, the exception escapes, and the reply is
     * never queued.
     */
    method HandleReadAsWritten() returns (next: Action)
      requires Valid()
      modifies readBuffer, localBuffer, this`position, this`limit, this`writeList, handler`locations, handler`notices
      ensures Valid()
      ensures SplitFrame(old(Buffered())).Frame? ==>
        var split := SplitFrame(old(Buffered()));
        var step := Handled(old(handler.locations), handler.directory, handler.listening, MessageFrom(split.frame).result);
        handler.locations == step.locations && handler.notices == old(handler.notices) + step.notices &&
        (!PutInBoundsAsWritten(|split.frame|, |old(Buffered())|) ==> next == Stall && writeList == old(writeList)) &&
        (PutInBoundsAsWritten(|split.frame|, |old(Buffered())|) && step.reply.Send? ==>
          next == Write && writeList == old(writeList) + [OutBuffer(ReplyBytes(step.reply).value, 0)] &&
          Buffered() == split.leftover && limit == position)
    {
      ghost var bs := Buffered();
      var pos := TakeFrame();
      var buf: Option<seq<byte>> := None;
      if pos != -1 {
        buf := handler.HandleMessage(localBuffer[..pos]);
        if buf.None? {
          return Stall;
        }
        var ok := KeepLeftoverAsWritten(pos);
        if !ok {
          return Stall;
        }
      } else {
        position := limit;
        limit := BUFSIZE;
      }
      next := ProcessWriteBuffer(buf);
    }

    /**
     * handleWrite: drops the fully written buffers at the front of the
     * list, then writes again if anything is left and reads otherwise.
     */
    method HandleWrite() returns (next: Action)
      modifies this`writeList
      ensures writeList == Pruned(old(writeList))
      ensures next == Write <==> writeList != []
      ensures next == Read <==> writeList == []
    {
      var list := writeList;
      while list != [] && !HasRemaining(list[0])
        invariant Pruned(list) == Pruned(old(writeList))
        decreases |list|
      {
        PrunedStep(list);
        list := list[1..];
      }
      PrunedDone(list);
      writeList := list;
      next := if list == [] then Read else Write;
    }

    /**
     * The read completion handler: -1 closes the channel without looking at
     * the buffer; otherwise the bytes the channel put in the buffer are handled.
     */
    method ReadCompleted(received: Option<seq<byte>>) returns (next: Action)
      requires Valid() && (received.Some? ==> |received.value| <= limit - position)
      modifies readBuffer, localBuffer, this`position, this`limit, this`writeList, handler`locations, handler`notices
      ensures Valid()
      ensures received.None? ==> next == Close && Buffered() == old(Buffered()) && writeList == old(writeList)
      ensures received.Some? && SplitFrame(old(Buffered()) + received.value).NoFrame? ==>
        next == Read && Buffered() == old(Buffered()) + received.value && limit == BUFSIZE
    {
      if received.None? {
        return Close;
      }
      Receive(received.value);
      next := HandleRead();
    }
  }
}
