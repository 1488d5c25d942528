/** The streaming request as the object its callbacks update. Every method takes the view to what `Upload`
    says. */
module UploadObject {
  import opened Upload
  import Chunked

  class RequestBody {
    var mode: Mode
    var started: bool
    var headersStarted: bool
    var headersWritten: bool
    var payloads: seq<string>
    var acceptedBytes: nat
    var writes: seq<string>
    var log: seq<string>
    var wire: seq<string>
    var writing: bool
    var pendingWireBytes: nat
    var ended: bool
    var backpressured: bool
    var readingResponse: bool
    var drains: nat
    var completed: bool
    const maxPendingBytes: nat

    ghost function View(): Upload
      reads this
    {
      Upload(mode, started, headersStarted, headersWritten, payloads, acceptedBytes, writes, log, wire, writing,
             pendingWireBytes, ended, backpressured, readingResponse, drains, completed)
    }

    constructor (maxPendingBytes: nat)
      ensures View() == FRESH && this.maxPendingBytes == maxPendingBytes
    {
      mode, started, headersStarted, headersWritten := NoBody, false, false, false;
      payloads, acceptedBytes, writes, log, wire := [], 0, [], [], [];
      writing, pendingWireBytes, ended, backpressured := false, 0, false, false;
      readingResponse, drains, completed := false, 0, false;
      this.maxPendingBytes := maxPendingBytes;
    }

    method BeginResponseRead()
      modifies this`readingResponse
      ensures View() == BeginRead(old(View()))
    {
      if completed || readingResponse {
        return;
      }
      readingResponse := true;
    }

    method FlushUploadWrites()
      modifies this`writing, this`wire
      ensures View() == Flush(old(View()))
    {
      if completed || !headersWritten || writing || writes == [] {
        return;
      }
      writing := true;
      wire := wire + [writes[0]];
    }

    method QueueWrite(payload: string)
      modifies this`pendingWireBytes, this`writes, this`log
      ensures View() == Enqueue(old(View()), payload)
    {
      pendingWireBytes := pendingWireBytes + |payload|;
      writes, log := writes + [payload], log + [payload];
    }

    method WriteBody(payload: string) returns (result: WriteResult)
      modifies this
      ensures (View(), result) == Write(old(View()), payload, maxPendingBytes)
    {
      hide Accept;
      if payload == "" {
        return Ready;
      }
      if completed || ended {
        return Rejected(NotConnected);
      }
      if backpressured {
        return Rejected(WouldBlock);
      }
      if mode.NoBody? {
        if headersWritten || headersStarted {
          return Rejected(InvalidArgument);
        }
        mode := ChunkedBody;
      }
      if mode.ContentLength? && mode.size < acceptedBytes + |payload| {
        return Rejected(InvalidArgument);
      }
      result := AcceptPayload(payload);
    }

    method CountPayload(payload: string)
      modifies this`acceptedBytes, this`payloads
      ensures View() == Count(old(View()), payload)
    {
      acceptedBytes, payloads := acceptedBytes + |payload|, payloads + [payload];
    }

    /** A payload that passed the checks: counted, framed and queued. */
    method AcceptPayload(payload: string) returns (result: WriteResult)
      requires !mode.NoBody?
      modifies this
      ensures (View(), result) == Accept(old(View()), payload, maxPendingBytes)
    {
      hide Enqueue, Flush, Count, Chunked.SerializeChunk;
      var payloadOnWire := if mode.ChunkedBody? then Chunked.SerializeChunk(payload) else payload;
      CountPayload(payload);
      QueueWrite(payloadOnWire);
      FlushUploadWrites();
      result := PressIfFull();
    }

    method PressIfFull() returns (result: WriteResult)
      modifies this`backpressured
      ensures View() == old(View()).(backpressured := backpressured)
      ensures if maxPendingBytes > 0 && pendingWireBytes >= maxPendingBytes then backpressured && result == Backpressure
              else backpressured == old(backpressured) && result == Ready
    {
      if maxPendingBytes > 0 && pendingWireBytes >= maxPendingBytes {
        backpressured := true;
        return Backpressure;
      }
      return Ready;
    }

    method MarkEnded()
      modifies this`ended
      ensures View() == old(View()).(ended := true)
    {
      ended := true;
    }

    method EndBody()
      modifies this
      ensures View() == End(old(View()))
    {
      hide Flush, Enqueue, BeginRead;
      if completed || ended {
        return;
      }
      if mode.NoBody? {
        ended := true;
        if headersWritten {
          BeginResponseRead();
        }
        return;
      }
      if mode.ContentLength? && acceptedBytes != mode.size {
        completed := true;
        return;
      }
      if mode.ChunkedBody? {
        QueueWrite(Chunked.LAST_CHUNK);
      }
      MarkEnded();
      FlushUploadWrites();
      if headersWritten && writes == [] && !writing {
        BeginResponseRead();
      }
    }

    method WriteRequest()
      modifies this`headersStarted, this`ended
      ensures View() == StartHeaders(old(View()))
    {
      headersStarted := true;
      if mode.ContentLength? && mode.size == 0 {
        ended := true;
      }
    }

    method OnRequestHeadersWritten(ok: bool)
      modifies this
      ensures View() == HeadersDone(old(View()), ok)
    {
      if completed {
        return;
      }
      if !ok {
        completed := true;
        return;
      }
      headersWritten := true;
      if (mode.NoBody? || ended) && writes == [] && !writing {
        BeginResponseRead();
        return;
      }
      FlushUploadWrites();
    }

    method NotifyUploadDrainIfNeeded()
      modifies this`backpressured, this`drains
      ensures View() == NotifyDrain(old(View()), maxPendingBytes)
    {
      if !backpressured || maxPendingBytes / 2 < pendingWireBytes {
        return;
      }
      backpressured := false;
      drains := drains + 1;
    }

    method PopWrite()
      modifies this`pendingWireBytes, this`writes
      ensures View() == Pop(old(View()))
    {
      if writes != [] {
        var size := |writes[0]|;
        pendingWireBytes := pendingWireBytes - if size <= pendingWireBytes then size else pendingWireBytes;
        writes := writes[1..];
      }
    }

    method OnUploadWritten(ok: bool)
      modifies this
      ensures View() == Written(old(View()), ok, maxPendingBytes)
    {
      hide Flush, Pop, NotifyDrain, BeginRead;
      if completed {
        return;
      }
      writing := false;
      if !ok {
        completed := true;
        return;
      }
      PopWrite();
      NotifyUploadDrainIfNeeded();
      if writes != [] {
        FlushUploadWrites();
        return;
      }
      if ended {
        BeginResponseRead();
      }
    }
  }
}
