/** The WebSocket session as the object its callbacks update: a read buffer with an offset that is
    compacted lazily, and the output queue. Every method takes the view to what `WsSession` says. */
module WsObject {
  import opened Text
  import opened WsFrame
  import opened WsSession

  const COMPACTION_THRESHOLD: nat := 4096

  lemma SliceOfTail(s: bytes, offset: nat, begin: nat, count: nat)
    requires offset + begin + count <= |s|
    ensures s[offset + begin..offset + begin + count] == s[offset..][begin..begin + count]
  {
  }

  class SessionObject {
    var readBuffer: bytes
    var readOffset: nat
    var fragmentedOpcode: Option<nat>
    var fragmentedMessage: bytes
    var sent: seq<Out>
    var writes: seq<bytes>
    var pendingWriteBytes: nat
    var writing: bool
    var wire: seq<bytes>
    var closeSent: bool
    var closeTimeoutActive: bool
    var closed: bool
    var delivered: seq<Delivered>
    var errors: seq<ErrorKind>
    const options: Config

    /** What has not been parsed yet; nothing is parsed after closing. */
    ghost function Unread(): bytes
      reads this
      requires readOffset <= |readBuffer|
    {
      if closed then [] else readBuffer[readOffset..]
    }

    ghost function View(): Session
      reads this
      requires readOffset <= |readBuffer|
    {
      Session(Unread(), fragmentedOpcode, fragmentedMessage, sent, writes, pendingWriteBytes, writing, wire,
              closeSent, closed, delivered, errors)
    }

    /** Less of the buffer is parsed than unparsed, and the close timer runs from the close frame on. */
    ghost predicate Valid()
      reads this
    {
      && readOffset <= |readBuffer|
      && (!closed ==> Compacted() && closeTimeoutActive == closeSent)
    }

    ghost predicate Compacted()
      reads this
    {
      readOffset == 0 || (readOffset < COMPACTION_THRESHOLD && readOffset <= |readBuffer| / 2)
    }

    constructor (options: Config)
      ensures Valid() && View() == FRESH && this.options == options
    {
      readBuffer, readOffset, fragmentedOpcode, fragmentedMessage := [], 0, None, [];
      sent, writes, pendingWriteBytes, writing, wire := [], [], 0, false, [];
      closeSent, closeTimeoutActive, closed, delivered, errors := false, false, false, [], [];
      this.options := options;
    }

    // -------------------------------------------------------------- output

    method FlushNextWrite()
      requires readOffset <= |readBuffer|
      modifies this`writing, this`wire
      ensures View() == FlushNext(old(View()))
    {
      if closed || writing || writes == [] {
        return;
      }
      writing := true;
      wire := wire + [writes[0]];
    }

    method QueueFrame(opcode: nat, payload: bytes)
      requires opcode < 16 && readOffset <= |readBuffer|
      modifies this`pendingWriteBytes, this`writes, this`sent, this`writing, this`wire
      ensures View() == Queue(old(View()), Out(opcode, payload))
    {
      hide MakeFrame;
      var frame := MakeFrame(opcode, payload);
      pendingWriteBytes := pendingWriteBytes + |frame|;
      writes, sent := writes + [frame], sent + [Out(opcode, payload)];
      FlushNextWrite();
    }

    method StartCloseTimeout()
      modifies this`closeTimeoutActive
      ensures closeTimeoutActive == (old(closeTimeoutActive) || !closed)
    {
      if closed || closeTimeoutActive {
        return;
      }
      closeTimeoutActive := true;
    }

    method CloseSession(code: nat, reason: bytes)
      requires Valid()
      modifies this
      ensures Valid() && View() == CloseWith(old(View()), code, reason)
      ensures readBuffer == old(readBuffer) && readOffset == old(readOffset)
    {
      if closed || closeSent {
        return;
      }
      closeSent := true;
      QueueFrame(CLOSE, BigEndian(code, 2) + reason);
      StartCloseTimeout();
    }

    method NotifyError(e: ErrorKind)
      requires readOffset <= |readBuffer|
      modifies this`errors
      ensures View() == Notify(old(View()), e)
    {
      errors := errors + [e];
    }

    method FailSoftly(code: nat, e: ErrorKind)
      requires Valid()
      modifies this
      ensures Valid() && View() == CloseWithError(old(View()), code, e)
      ensures readBuffer == old(readBuffer) && readOffset == old(readOffset)
    {
      hide CloseWith;
      NotifyError(e);
      CloseSession(code, []);
    }

    method ShutTransport()
      requires readOffset <= |readBuffer|
      modifies this`closed, this`closeTimeoutActive, this`writes, this`pendingWriteBytes
      ensures closed && View() == CloseTransport(old(View()))
    {
      if closed {
        return;
      }
      closed, closeTimeoutActive := true, false;
      writes, pendingWriteBytes := [], 0;
    }

    method FailHard(e: ErrorKind)
      requires Valid()
      modifies this
      ensures Valid() && View() == Fail(old(View()), e)
    {
      NotifyError(e);
      ShutTransport();
    }

    method Send(opcode: nat, payload: bytes)
      requires Valid() && opcode < 16
      modifies this
      ensures Valid() && View() == SendFrame(old(View()), opcode, payload, options)
      ensures readBuffer == old(readBuffer) && readOffset == old(readOffset)
    {
      hide Queue, CloseWithError;
      if closed {
        return;
      }
      if options.maxPendingBytes < pendingWriteBytes + |payload| {
        FailSoftly(INTERNAL_ERROR, WouldBlock);
        return;
      }
      QueueFrame(opcode, payload);
    }

    method OnWrite(ok: bool)
      requires Valid()
      modifies this
      ensures Valid() && View() == WriteDone(old(View()), ok)
    {
      writing := false;
      if closed {
        return;
      }
      if !ok {
        FailHard(TransportError);
        return;
      }
      if writes != [] {
        var size := |writes[0]|;
        pendingWriteBytes := pendingWriteBytes - if size <= pendingWriteBytes then size else pendingWriteBytes;
        writes := writes[1..];
      }
      FlushNextWrite();
    }

    // -------------------------------------------------------------- dispatch

    method HandleDataFrame(f: Frame)
      requires Valid() && !closed
      modifies this
      ensures Valid() && View() == HandleData(old(View()), f)
    {
      hide CloseWithError;
      if fragmentedOpcode.Some? {
        FailSoftly(PROTOCOL_ERROR, ProtocolError);
        return;
      }
      if f.fin {
        delivered := delivered + [Message(f.opcode, f.payload)];
        return;
      }
      fragmentedOpcode, fragmentedMessage := Some(f.opcode), f.payload;
    }

    method HandleContinuationFrame(f: Frame)
      requires Valid() && !closed
      modifies this
      ensures Valid() && View() == HandleContinuation(old(View()), f, options)
    {
      hide CloseWithError;
      if fragmentedOpcode.None? {
        FailSoftly(PROTOCOL_ERROR, ProtocolError);
        return;
      }
      if options.maxMessageBytes < |fragmentedMessage| + |f.payload| {
        FailSoftly(MESSAGE_TOO_LARGE, MessageSize);
        return;
      }
      fragmentedMessage := fragmentedMessage + f.payload;
      if !f.fin {
        return;
      }
      var opcode, message := fragmentedOpcode.value, fragmentedMessage;
      fragmentedOpcode, fragmentedMessage := None, [];
      delivered := delivered + [Message(opcode, message)];
    }

    method DispatchPing(f: Frame)
      requires Valid() && !closed
      modifies this
      ensures Valid() && View() == HandlePing(old(View()), f, options)
    {
      hide SendFrame;
      delivered := delivered + [Ping(f.payload)];
      if options.autoPong {
        Send(PONG, f.payload);
      }
    }

    method DispatchClose(f: Frame)
      requires Valid() && !closed
      modifies this
      ensures Valid() && View() == HandleClose(old(View()), f)
    {
      hide CloseWithError, Queue, ValidCloseCode, Number;
      if |f.payload| == 1 {
        FailSoftly(PROTOCOL_ERROR, ProtocolError);
        return;
      }
      var code := NORMAL;
      if |f.payload| >= 2 {
        code := ReadNumber(f.payload[..2]);
        if !ValidCloseCode(code) {
          FailSoftly(PROTOCOL_ERROR, ProtocolError);
          return;
        }
      }
      delivered := delivered + [Closing(code, if f.payload == [] then [] else f.payload[2..])];
      if !closeSent {
        closeSent := true;
        QueueFrame(CLOSE, f.payload);
        StartCloseTimeout();
      } else {
        ShutTransport();
      }
    }

    method Dispatch(f: Frame)
      requires Valid() && !closed
      modifies this
      ensures Valid() && View() == HandleFrame(old(View()), f, options)
    {
      hide CloseWithError, HandleData, HandleContinuation, HandlePing, HandleClose;
      if f.opcode / 8 % 2 == 1 && (!f.fin || 125 < |f.payload|) {
        FailSoftly(PROTOCOL_ERROR, ProtocolError);
      } else if f.opcode == TEXT || f.opcode == BINARY {
        HandleDataFrame(f);
      } else if f.opcode == CONTINUATION {
        HandleContinuationFrame(f);
      } else if f.opcode == PING {
        DispatchPing(f);
      } else if f.opcode == PONG {
        delivered := delivered + [Pong(f.payload)];
      } else if f.opcode == CLOSE {
        DispatchClose(f);
      } else {
        FailSoftly(PROTOCOL_ERROR, ProtocolError);
      }
    }

    // -------------------------------------------------------------- input

    /** Drops parsed bytes only when that is all of them, at least 4096, or more than half. */
    method CompactReadBuffer()
      requires readOffset <= |readBuffer|
      modifies this`readBuffer, this`readOffset
      ensures readOffset <= |readBuffer| && Compacted()
      ensures readBuffer[readOffset..] == old(readBuffer[readOffset..])
      ensures View() == old(View())
    {
      if readOffset == 0 {
        return;
      }
      if readOffset == |readBuffer| {
        readBuffer, readOffset := [], 0;
        return;
      }
      if readOffset < COMPACTION_THRESHOLD && readOffset <= |readBuffer| / 2 {
        return;
      }
      readBuffer := readBuffer[readOffset..];
      readOffset := 0;
    }

    /** The unmasking loop. */
    method Unmask(begin: nat, length: nat, key: bytes) returns (payload: bytes)
      requires begin + length <= |readBuffer| && |key| == 4
      ensures payload == Mask(readBuffer[begin..begin + length], key)
    {
      hide Xor;
      payload := [];
      for i := 0 to length
        invariant |payload| == i
        invariant forall j :: 0 <= j < i ==> payload[j] == Xor(readBuffer[begin + j], key[j % 4])
      {
        payload := payload + [Xor(readBuffer[begin + i], key[i % 4])];
      }
    }

    /** Reads one frame in place, at the read offset. */
    method NextFrame() returns (r: Parsed)
      requires readOffset <= |readBuffer|
      ensures r == ParseFrame(readBuffer[readOffset..], options.maxMessageBytes)
    {
      hide Mask, Number;
      ghost var b := readBuffer[readOffset..];
      if |readBuffer| - readOffset < 2 {
        return NeedMore;
      }
      var first, second := readBuffer[readOffset], readBuffer[readOffset + 1];
      assert first == b[0] && second == b[1];
      if first / 16 % 8 != 0 || second < 128 {
        return BadHeader;
      }
      var length: nat, extended := second % 128, ExtendedBytes(second % 128);
      if |readBuffer| < readOffset + 2 + extended {
        return NeedMore;
      }
      SliceOfTail(readBuffer, readOffset, 2, extended);
      if extended > 0 {
        length := ReadNumber(readBuffer[readOffset + 2..readOffset + 2 + extended]);
      }
      assert length == Length(b, second % 128, extended);
      if options.maxMessageBytes < length {
        return TooBig;
      }
      var start := 2 + extended + 4;
      if |readBuffer| < readOffset + start + length {
        return NeedMore;
      }
      SliceOfTail(readBuffer, readOffset, 2 + extended, 4);
      SliceOfTail(readBuffer, readOffset, start, length);
      var key := readBuffer[readOffset + 2 + extended..readOffset + start];
      var payload := Unmask(readOffset + start, length, key);
      return Complete(Frame(first >= 128, first % 16, payload), start + length);
    }

    method ParseFrames()
      requires Valid()
      modifies this
      ensures Valid() && View() == Drain(old(View()), options)
    {
      hide ParseFrame, HandleFrame, CloseWithError;
      while !closed
        invariant Valid()
        invariant Drain(View(), options) == Drain(old(View()), options)
        decreases !closed, |Unread()|
      {
        ghost var before := View();
        var next := NextFrame();
        match next
        case NeedMore =>
          if |readBuffer| - readOffset < 2 {
            CompactReadBuffer();
          }
          return;
        case BadHeader =>
          FailSoftly(PROTOCOL_ERROR, ProtocolError);
          return;
        case TooBig =>
          FailSoftly(MESSAGE_TOO_LARGE, MessageSize);
          return;
        case Complete(f, size) =>
          readOffset := readOffset + size;
          assert readBuffer[readOffset..] == before.unread[size..];
          CompactReadBuffer();
          ghost var ready := View();
          assert ready == before.(unread := before.unread[size..]);
          Dispatch(f);
          DrainUnfold(before, options, f, size);
          HandleKeepsUnread(ready, f, options);
      }
    }

    method OnReadBytes(more: bytes)
      requires Valid()
      modifies this
      ensures Valid() && View() == OnRead(old(View()), more, options)
    {
      hide Drain;
      if closed {
        return;
      }
      assert readBuffer[readOffset..] + more == (readBuffer + more)[readOffset..];
      readBuffer := readBuffer + more;
      ParseFrames();
    }

    method OnReadEnd()
      requires Valid()
      modifies this
      ensures Valid() && View() == OnEof(old(View()))
    {
      if closed {
        return;
      }
      if closeSent {
        ShutTransport();
        return;
      }
      FailHard(NotConnected);
    }

    method OnCloseTimeout()
      requires Valid()
      modifies this
      ensures Valid() && View() == if old(closeSent) then CloseTransport(old(View())) else old(View())
    {
      if closed || !closeTimeoutActive {
        return;
      }
      closeTimeoutActive := false;
      ShutTransport();
    }
  }
}
