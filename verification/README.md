# Verified models of uvpp-protocols

uvpp-protocols is an event-driven HTTP, WebSocket and SSE library over libuv. Sockets, TLS and the
tokenizing of HTTP heads belong to other libraries. What the repository itself owns is a handful of
parsers, indexes and queues that must agree with a simpler form of the same thing. This project models
them and proves that they do, or says exactly when they do.

| component | files |
|---|---|
| Router trie, mounting, linear matcher | `Trie`, `TrieEdit`, `RoutePath`, `RouteText`, `RouteEncoding`, `RouteHooks`, `Router` |
| Multipart forms and streams | `Disposition`, `DispositionPrint`, `Multipart`, `FormPrint`, `MultipartStream`, `MultipartRefine`, `StreamAccepts`, `FormIndex` |
| WebSocket sessions | `WsFrame`, `WsSession`, `WsOutput`, `WsMessages`, `WsSends`, `WsObject` |
| HTTP client: chunk coding, uploads, pool | `Chunked`, `ChunkCoding`, `ChunkForms`, `ChunkStreaming`, `ChunkAccepts`, `Upload`, `UploadProgress`, `UploadObject`, `Pool` |
| HTTP server session output | `ServerSession`, `ServerOrder`, `ServerRuns`, `ServerKeeps`, `ServerFlow`, `ServerOutcomes`, `ServerSilentClose`, `ServerObject` |
| URLs | `Url` |
| Server-sent events | `Sse` |
| Text search and scanning | `Text` |

Code that the library writes as loops over a local output is a method with loop invariants, proved equal
to a function. State that callbacks update in place (router, multipart stream, WebSocket session, server
session, upload, pool, streaming body, form index) is a class; each method takes the view of the object to
what a pure transition function says, and the theorems quantify over all runs of those functions.
A callback or event is one atomic step. Clocks, timers and the transport are events of the run: a timer may
fire, a write may complete or fail, bytes may be cut into reads anywhere.

`dafny verify dfyconfig.toml` checks everything.

## What the proofs found

- Chunk sizes are read into 32 bits and `size + 2` is computed in 32 bits (src/http/client.cpp:404, 1798).
  A chunk list is decoded to itself exactly when every size is below 2^32, and both incremental forms agree
  with the one-shot decoder on every cut exactly when every size is below 2^32 - 2; otherwise there is a cut
  on which `substr` throws.
- The buffered chunk decoder takes lines behind a finished body for trailers when they end in a blank line
  (src/http/client.cpp:389-403); what it accepts is exactly the chunk lists, extensions and endings of `ChunkForms`.
- The streaming multipart parser compares its whole buffered tail with the header limit
  (src/http/multipart.cpp:571), so it agrees with the form parser on every cut and every pause exactly when
  each header block is at least three bytes under the limit.
- The absolute-form request target gives the URL back without its fragment exactly when the path is not
  empty. Resolving against a base without an authority never yields a URL without one.
- A close-after response that is streamed under its own content-length queues no write that closes the
  connection (src/http/server.cpp:1049-1051). Every other close-after response does. So responses behind it
  can be dropped while later ones are still sent. When such a response is ended, request order survives every
  continuation that ends no further one if and only if order was not lost before and nothing with something
  to send is queued behind it, unless a closing write is already on its way: something `end()` could check.
  The failing continuation is built for every session, head and text.
- A frame header that is refused stays in the read buffer, so it is reported again after every later read
  (src/websocket/session.cpp:266-268). The session is the same for every cut of the bytes into reads, error
  callbacks included, if and only if no proper prefix of them leaves such a header at the front.
- Bytes queued in a stream slot that is cancelled are never taken off `pending_write_bytes_`
  (src/http/server.cpp:951-959, 1096-1102); the accounting theorem counts them exactly. When they are more
  than half of the limit, a later response that is told to wait waits until it leaves the queue: its drain
  callback is never called. Once everything queued was written, a waiting response may go on if and only if the
  bytes still held in slots are at most half of the limit.
- The two clamped subtractions of write completions (`std::min`) never clamp, in the WebSocket session, the
  server session and the upload.

## Model

| member | source | states |
|---|---|---|
| Text.FindIsFirst | src/http/client.cpp:370 | the search the parsers share returns the least occurrence at or after the offset, or there is none |
| Text.FindInWindow | src/http/multipart.cpp:165-189 | searching a window of a text finds what searching the text finds once it lies in the window, and nothing otherwise |
| Chunked.Hex | src/http/client.cpp:286-306 | base-16 printing is undone by the unbounded base-16 reader and prints no separator characters |
| Chunked.ParseUint | src/http/client.cpp:200-205 | reading fails exactly on a non-number or a value that does not fit 32 bits |
| Chunked.DecodeChunked | src/http/client.cpp:367-417 | the offset loop computes the recursive decoder |
| ChunkCoding.DecodeShift | src/http/client.cpp:367-417 | decoding depends only on the bytes ahead of the offset |
| ChunkCoding.DecodeChunkThenRest | src/http/client.cpp:367-417 | a serialized chunk in front of any bytes decodes to its payload followed by the rest, or is refused when its size needs more than 32 bits |
| ChunkCoding.ChunkRoundTrip | src/http/client.cpp:286-306 | encoding then decoding any list of non-empty chunks gives their concatenation if and only if every size fits 32 bits; otherwise the size is refused |
| ChunkForms.SizeLineOfForm | src/http/client.cpp:367-387 | a size in base 16 with leading zeros and digits of either case, followed by any extension, is read as its size, or refused where it does not fit 32 bits |
| ChunkForms.FormsRoundTrip | src/http/client.cpp:367-417 | a chunk list as any sender may write it, with extensions and a last chunk followed by a line break or by any text up to its first blank line, decodes to its payloads alone, exactly when their sizes fit; otherwise the size is refused |
| ChunkForms.DecodedIsWritten | src/http/client.cpp:367-417 | and nothing else is decoded: every accepted body was written in that form, with exactly those payloads |
| ChunkForms.LastExactly | src/http/client.cpp:389-403 | what stands behind the last chunk's size line decides exactly between the end, missing trailers and unexpected bytes |
| ChunkForms.TrailersEnd | src/http/client.cpp:389-403 | any trailer lines and a line break end a body, and so do such lines behind a body that had already ended |
| ChunkForms.FormsOnEveryCut | src/http/client.cpp:1763-1817 | both incremental decoders give those payloads on every cut if and only if no chunk size is within two of 2^32 |
| Chunked.StreamingBody.ProcessChunkedBody | src/http/client.cpp:1763-1817 | the erasing loop over the buffer reaches the state the pump function describes |
| Chunked.StreamingBody.ProcessChunk | src/http/client.cpp:1763-1817 | one turn of the loop: its new state, and that it goes on exactly when it changed something |
| Chunked.StreamingBody.Read | src/http/client.cpp:1654-1672 | a read appends and pumps |
| ChunkStreaming.StreamingRefinesBuffered | src/http/client.cpp:1763-1817 | for every cut of an accepted body within the limit, streaming completes with exactly the decoded body |
| ChunkStreaming.WrapBreaksStreaming | src/http/client.cpp:1798 | for every accepted body with a wrapping size there is a cut on which streaming throws |
| ChunkStreaming.StreamingExact | src/http/client.cpp:1763-1817 | streaming agrees with the buffered decoder on all cuts if and only if no size wraps |
| ChunkStreaming.PrefixOutcome | src/http/client.cpp:900-909 | on any prefix of an accepted body the decoder reports only missing bytes or the result |
| ChunkStreaming.RetryRefinesBuffered | src/http/client.cpp:848-911 | decoding from scratch after every read ends with that same body, or with the refusal of one over the limit (line 456), whatever the cut |
| ChunkStreaming.RetryExact | src/http/client.cpp:848-911 | retrying gives that same outcome, body or refusal, on all cuts if and only if no size wraps |
| ChunkAccepts.StreamingIsDecoding | src/http/client.cpp:1763-1817 | over any bytes and cuts: never more than the limit is delivered; a complete body is what the one-shot decoder reads up to some point; malformed bytes and throws are the one-shot decoder's on some prefix; the limit is reported only where every body that may follow is over it; waiting means bytes are missing |
| ChunkAccepts.RetryIsDecoding | src/http/client.cpp:848-911 | over any bytes and cuts: retrying waits with everything received exactly while bytes are missing, and every other outcome is the one-shot decoder's on the bytes of some read |
| Upload.ReadsAfterExactBody | src/http/client.cpp:1635-1647 | in every run the response is read only with an empty queue, nothing in flight and the body ended or absent; then exactly content-length bytes were handed over, or a chunked body that decodes to the accepted payloads |
| Upload.BodyInOrder | src/http/client.cpp:1161-1244 | in every run the wire is a prefix of the framed payloads in order, the pending count is the size of the queue, and one write is in flight exactly when the head is out and something is queued |
| Upload.NoLostWakeup | src/http/client.cpp:1583-1633 | a backpressured upload has more than half the limit pending and, once the head is out, a write in flight; a body that is all out is being answered |
| Upload.FramedEncodes | src/http/client.cpp:1188-1236 | the queued chunks and last chunk are the chunk coding of the payloads |
| Upload.WrittenInv | src/http/client.cpp:1595-1618 | a completed write keeps the invariants and never needs the clamp |
| Upload.EndInv | src/http/client.cpp:1216-1244 | ending the body keeps the invariants in each mode, a length mismatch included |
| Upload.WriteInv | src/http/client.cpp:1161-1205 | a write, accepted or rejected, keeps the invariants |
| Upload.HeadersInv | src/http/client.cpp:1564-1581 | the completed head write keeps the invariants and starts the body or the response |
| UploadProgress.WriteDecides | src/http/client.cpp:1161-1205 | which writes are taken, exactly: not empty, not ended, not told to wait, a body allowed, within the content-length; a taken one is counted, framed and queued, backpressure is answered exactly at the limit, and any other write changes nothing and says why |
| UploadProgress.BeginDecides | src/http/client.cpp:1517-1562 | the framing is the one chosen last before the start; the head is handed over once, to a started request, and a body announced as empty has then ended |
| UploadProgress.TakenGoesOut | src/http/client.cpp:1583-1593 | a taken write goes out at once exactly when the head is out and nothing is queued before it |
| UploadProgress.TakenIsBody | src/http/client.cpp:1161-1244 | in every run the body is exactly the taken writes in order, and each answer of backpressure is followed by exactly one drain callback or is still owed it |
| UploadProgress.EndDecides | src/http/client.cpp:1216-1244 | ending fails exactly on a length mismatch, adds the last chunk of a chunked body, and starts reading exactly when nothing is left to send |
| UploadProgress.HeadDecides | src/http/client.cpp:1564-1581 | the completed head starts the body when something is queued, and the response exactly when there is nothing to wait for |
| UploadProgress.WrittenDecides | src/http/client.cpp:1595-1633 | a completed write takes its size off and calls the drain callback exactly at or below half the limit |
| UploadProgress.UploadCompletes | src/http/client.cpp:1216-1647 | from every state with the head handed over and as many bytes as announced: ending and completing the writes sends the whole framed body and starts reading |
| UploadObject.RequestBody.constructor | src/http/client.cpp:1920-1961 | a new request has nothing queued |
| UploadObject.RequestBody.WriteBody | src/http/client.cpp:1161-1205 | the new state and the result of a write, rejections included |
| UploadObject.RequestBody.EndBody | src/http/client.cpp:1216-1244 | the new state after ending |
| UploadObject.RequestBody.WriteRequest | src/http/client.cpp:1517-1562 | handing over the head ends an upload of length zero |
| UploadObject.RequestBody.OnRequestHeadersWritten | src/http/client.cpp:1564-1581 | the new state after the head write |
| UploadObject.RequestBody.FlushUploadWrites | src/http/client.cpp:1583-1593 | the front of the queue goes out when nothing else is in flight |
| UploadObject.RequestBody.OnUploadWritten | src/http/client.cpp:1595-1618 | the new state after a body write, failed or not |
| UploadObject.RequestBody.NotifyUploadDrainIfNeeded | src/http/client.cpp:1620-1633 | backpressure ends at or below half the limit |
| UploadObject.RequestBody.BeginResponseRead | src/http/client.cpp:1635-1647 | reading starts once |
| Pool.EachStreamInOnePlace | src/http/client.cpp:39-165 | over any sequence of operations each released stream is idle, handed out or closed, in exactly one of these and once; no stored queue is empty or over the limit |
| Pool.TakesTheOldest | src/http/client.cpp:47-77 | `take` hands out the oldest idle stream released under that very key, and nothing only when none is idle there |
| Pool.ReleaseKeepsNewest | src/http/client.cpp:79-118 | in every run a stream given back becomes the newest idle one of its key, the oldest is closed for it when the queue is full, and with a maximum of zero it is closed itself; other keys are untouched |
| Pool.ExpireCloses | src/http/client.cpp:130-147 | in every run an idle stream whose timer fires is closed and taken out from between its neighbours, and nothing else changes |
| Pool.ShutCloses | src/http/client.cpp:120-127 | closing the pool closes exactly the idle streams, whatever the order of the keys |
| Pool.FlatCount | src/http/client.cpp:120-127 | closing all queues in any order of the keys closes each idle stream as often as it is idle |
| Pool.WithoutInv | src/http/client.cpp:130-147 | removing an expired entry keeps the others of its queue in order |
| Pool.ConnectionPool.constructor | src/http/client.cpp:164 | a new pool is empty |
| Pool.ConnectionPool.TakeStream | src/http/client.cpp:47-77 | the new pool and the stream taken |
| Pool.ConnectionPool.ReleaseStream | src/http/client.cpp:79-118 | the eviction loop keeps the newest entries and closes the oldest in order |
| Pool.ConnectionPool.ExpireEntry | src/http/client.cpp:130-147 | the removal loop leaves the queue without the entry, erased when empty |
| Pool.ConnectionPool.CloseAllStreams | src/http/client.cpp:120-127 | every queue is closed and the map emptied |
| ServerRuns.NeverInterleaved | src/http/server.cpp:917-1065 | in every run the wire is a prefix of what the requests emitted, in request order; each emission is a prefix of the response, all of it once it left uncancelled, nothing while earlier requests are queued |
| ServerRuns.ResponsesInOrder | src/http/server.cpp:905-959 | in every run in which no close-after response streamed under its own length has left the queue: whenever bytes of a response are on the wire, those of all earlier requests went out entirely, and the wire is a prefix of the responses in request order |
| ServerRuns.ClosesExactly | src/http/server.cpp:1027-1056 | a response that went out leaves a closing write if and only if it is close-after and not streamed under its own length |
| ServerRuns.OneWriteInFlight | src/http/server.cpp:1067-1121 | an open session has a write in flight exactly when its queue is not empty; nothing follows a closing write on the wire |
| ServerRuns.SlotAccounting | src/http/server.cpp:865-903 | queued slots plus unsent counted responses stay within the maximum; both counters equal what the queues hold, the bytes of cancelled slots included |
| ServerRuns.HooksRunOnce | src/http/server.cpp:768-792 | hooks never run twice; a slot that left ran them once, as completed exactly when it completed |
| ServerOutcomes.HookOutcomes | src/http/server.cpp:768-792 | in every step the hooks of a response run, if they do, with the outcome of the event: completed for its own answer, failed for a write error or a body timeout, cancelled otherwise |
| ServerOutcomes.ShutRunsHooks | src/http/server.cpp:951-969 | shutting the session down runs the hooks of every response still to come, with that outcome, and leaves none queued |
| ServerOutcomes.RequestTaken | src/http/server.cpp:865-903 | a request gets a fresh slot behind all others exactly while fewer than the maximum are pending, otherwise the session closes |
| ServerFlow.BackpressureIsFair | src/http/server.cpp:1081-1135 | in every run: a queued response waits only while more than half the limit is pending, so a write is in flight while the bytes still in slots are no more than that; a step sets the flag only at the limit and clears that of a queued response only at or below half |
| ServerFlow.DrainingLetsGo | src/http/server.cpp:1081-1135 | once everything queued was written, a waiting response may go on if and only if at most half the limit is still held in slots |
| ServerFlow.WaitsForEver | src/http/server.cpp:951-959 | with more than that left by cancelled responses, a waiting response waits in every continuation until it leaves the queue |
| ServerFlow.SilentEndStalls | src/http/server.cpp:951-959 | a silent end that cancels such a response makes this happen to the next response that fills the limit |
| ServerFlow.AheadHappens | src/http/server.cpp:971-1065 | the state this starts from is reachable, for every payload |
| ServerFlow.AnswerTaken | src/http/server.cpp:905-915 | a whole answer to an unclaimed request is the response, as it is |
| ServerFlow.AmendTaken | src/http/server.cpp:933-943 | a completed answer that is still queued may be changed, and what is then serialized is the change |
| ServerFlow.PieceTaken | src/http/server.cpp:986-1025 | a piece of a claimed stream is taken behind the pieces before it exactly when the response was not told to wait, and tells it to wait exactly at the limit |
| ServerFlow.PieceSuppressed | src/http/server.cpp:995-998 | a piece of the answer to a request that wants no body makes it a stream and queues nothing |
| ServerFlow.EndTaken | src/http/server.cpp:1027-1056 | ending a claimed stream completes it with the pieces written so far |
| ServerFlow.AllDelivered | src/http/server.cpp:1067-1135 | with every request answered, none skipped and no close on its way, writing out the queue delivers every response whole and in order |
| ServerRuns.StreamedBodyDecodes | src/http/server.cpp:986-1056 | a completed chunked stream is its head and a body that the client's decoder reads back as exactly what was written |
| ServerRuns.WirePrefix | src/http/server.cpp:1067-1121 | while open, and with every skipped response empty or behind a closing write, the bytes handed over are a prefix of the responses in order |
| ServerRuns.WireOrder | src/http/server.cpp:1067-1121 | under the same condition every request before one on the wire went out entirely |
| ServerRuns.StreamStep | src/http/server.cpp:917-931 | flushing the front stream keeps every invariant and, when it leaves to be followed by a close, leaves a closing write or is silent |
| ServerRuns.WholeStep | src/http/server.cpp:933-947 | sending a whole response keeps every invariant |
| ServerRuns.FlushInv | src/http/server.cpp:917-949 | flushing all that is ready keeps every invariant |
| ServerRuns.CancelBehind | src/http/server.cpp:951-959 | dropping the slots behind a closing response keeps every invariant |
| ServerRuns.WriteDoneInv | src/http/server.cpp:1081-1121 | a completed or failed write keeps every invariant; neither clamp acts |
| ServerRuns.AmendInv | src/http/server.cpp:937-943 | a completed response that is still queued may change before it is serialized without breaking any invariant |
| ServerRuns.EndSlot | src/http/server.cpp:1027-1056 | an ended stream has queued exactly its head, chunks and last chunk, which closes a close-after response |
| ServerRuns.GrownSlot | src/http/server.cpp:986-1016 | a written payload extends the slot's output by its framing |
| ServerRuns.RunInv | src/http/server.cpp:917-1121 | the invariants hold after any sequence of events |
| ServerOrder.EncodeIsChunks | src/http/server.cpp:159-165 | the server's chunks and last chunk are the client's chunk coding, byte for byte |
| ServerKeeps.RunKeeps | src/http/server.cpp:905-975 | in every continuation a response that left the queue stays as it left and the log of writes only grows, at or behind the front |
| ServerSilentClose.InOrderExactly | src/http/server.cpp:905-959 | any open reachable session without a silent close waiting in its queue: all continuations that end no further one send the responses in order if and only if every skipped response was empty or is behind a closing write; with that condition order and byte prefix hold as long as no silent close leaves the queue, and without it order is lost whatever waits |
| ServerSilentClose.InPrefixExactly | src/http/server.cpp:917-959 | once nothing is queued, as right behind a silent close: the bytes stay a prefix of the responses in all such continuations if and only if the same condition holds or the connection is about to close behind bytes that happen to be right |
| ServerSilentClose.LuckHappens | src/http/server.cpp:917-959 | such luck is reachable: a skipped response and a later closing one with the same text |
| ServerSilentClose.SkippedViolates | src/http/server.cpp:951-959 | from any open session with a skipped response, some continuation puts a later one on the wire |
| ServerSilentClose.PrefixViolates | src/http/server.cpp:951-959 | and, once nothing is queued, some continuation puts wrong bytes there: the first character of a new response differs from the skipped one's |
| ServerSilentClose.SilentEndExactly | src/http/server.cpp:1027-1056 | before the `end()` that closes silently, any session, head and length header: order survives it if and only if it was not lost before and nothing with output is queued behind, or a closing write is on its way; without such a write the same decides about the bytes |
| ServerSilentClose.SilentCloseSkips | src/http/server.cpp:1049-1051 | two pipelined requests, the second answered first with any text: ending the first under any head with a content-length keeps the order if and only if that text is empty |
| ServerObject.SessionObject.constructor | src/http/server.cpp:1255-1272 | a new session is open and empty |
| ServerObject.SessionObject.CreateResponseSlot | src/http/server.cpp:865-903 | a slot at the end of the queue, or the session closes at the limit |
| ServerObject.SessionObject.CompleteResponse | src/http/server.cpp:905-915 | completion, its hooks and the flush |
| ServerObject.SessionObject.FlushResponseSlots | src/http/server.cpp:917-949 | the loop sends every front slot that is ready and stops behind a close |
| ServerObject.SessionObject.CancelPendingResponses | src/http/server.cpp:951-969 | the loop cancels every queued slot, with hooks for the incomplete ones |
| ServerObject.SessionObject.EnqueueWrite | src/http/server.cpp:971-975 | queueing a write |
| ServerObject.SessionObject.WriteStreamChunk | src/http/server.cpp:986-1025 | the new state after a stream write, backpressure included |
| ServerObject.SessionObject.EndStream | src/http/server.cpp:1027-1056 | the new state after a stream end |
| ServerObject.SessionObject.FlushStreamWrites | src/http/server.cpp:1058-1065 | the loop moves the front slot's writes in order |
| ServerObject.SessionObject.FlushNextWrite | src/http/server.cpp:1067-1079 | one write at a time |
| ServerObject.SessionObject.OnWrite | src/http/server.cpp:1081-1121 | the new state after a write completes or fails; `ServerFlow.BackpressureIsFair` says which waiting responses it lets go on |
| ServerObject.SessionObject.NotifyDrainedSlots | src/http/server.cpp:1123-1135 | at or below the low watermark every queued slot may write again, above it none |
| ServerObject.SessionObject.CloseTransport | src/http/server.cpp:233-250 | closing cancels what is queued, once |
| ServerObject.SessionObject.DispatchEnd | src/http/server.cpp:557-564 | the end of a handler call flushes |
| WsFrame.MaskTwice | src/websocket/session.cpp:308-311 | masking twice with one key gives the payload back |
| WsFrame.MaskFlips | src/websocket/session.cpp:308-311 | a masked byte differs from the byte exactly in the bits that the key byte at its position modulo four has |
| WsFrame.NumberOfBigEndian | src/websocket/session.cpp:131-140 | big-endian lengths are read back |
| WsFrame.ParseFrame | src/websocket/session.cpp:252-317 | a complete frame takes at least six bytes and its payload is within the limit |
| WsFrame.HeaderDecides | src/websocket/session.cpp:252-300 | a frame is refused at once exactly when a reserved bit is set or it is not masked, and as too big exactly when its declared length, in any of the three forms, is over the limit |
| WsFrame.ParseFrameStable | src/websocket/session.cpp:252-317 | a decision about the front of the buffer stays when bytes arrive |
| WsFrame.ClientFrameRoundTrip | src/websocket/session.cpp:252-317 | a masked frame of any length form, in front of any bytes, is read back whole and unmasked |
| WsFrame.ServerFrameRoundTrip | src/websocket/session.cpp:142-157 | a queued frame decodes under section 5.2 of RFC 6455 to its opcode and payload |
| WsSession.DrainSplit | src/websocket/session.cpp:252-317 | parsing what has arrived and again when more arrives equals parsing it all at once, but a header refused the first time is reported once more |
| WsSession.ReadBoundaries | src/websocket/session.cpp:230-250 | any bytes, well formed or not, in any state: every cut into reads leaves the session of one read, error reports included, plus one report for each read behind the one that met a refused header; equal if and only if there is none |
| WsSession.BoundariesExactly | src/websocket/session.cpp:252-268 | all cuts of the bytes into non-empty reads leave the same session if and only if no proper prefix of them leaves a refused header at the front of an open session |
| WsSession.CutInTwo | src/websocket/session.cpp:266-268 | cutting behind such a prefix reports the header twice |
| WsSession.FramesArrive | src/websocket/session.cpp:201-317 | every cut of masked frames within the limit hands exactly those frames to the handlers until the session closes |
| WsSession.HandleKeepsUnread | src/websocket/session.cpp:336-482 | handlers leave the unread bytes alone unless they close |
| WsOutput.OutputQueue | src/websocket/session.cpp:542-590 | in every run: pending bytes equal the queue and stay within limit + 10 + one close frame; at most one close frame ever; transport writes are the queued frames in order, each readable |
| WsOutput.WriteDoneInv | src/websocket/session.cpp:561-590 | a completed or failed write keeps the queue invariant; the clamp never acts |
| WsOutput.QueueInOrder | src/websocket/session.cpp:542-559 | queueing keeps order, count and the one write in flight |
| WsSends.SendAsked | src/websocket/session.cpp:484-508 | a send on an open session with room puts out exactly the frame asked for, without room reports an error and closes with 1011, and on a closed one does nothing |
| WsSends.SendsAreSent | src/websocket/session.cpp:484-508 | in every run, whatever is read meanwhile, the text, binary and ping frames put out are exactly the sends that found the session open with room, in order |
| WsSends.PingAnswered | src/websocket/session.cpp:427-435 | a legal ping is heard and, with automatic pongs and room, answered by a pong with its own payload |
| WsSends.PingsAnswered | src/websocket/session.cpp:336-442 | among any frames up to a close frame, without an error, exactly the pings are answered, in order, and every ping and pong is heard |
| WsSends.CloseAsked | src/websocket/session.cpp:510-518 | closing puts out one close frame with the code and reason, once |
| WsSends.CloseAnswered | src/websocket/session.cpp:444-482 | a close frame is heard with its code and reason, 1000 when empty, and echoed once; one byte or a forbidden code is a protocol error |
| WsSends.CodesComplement | src/websocket/session.cpp:166-184 | the accepted close codes are exactly those section 7.4 of RFC 6455 does not forbid |
| WsSends.MalformedRefused | src/websocket/session.cpp:336-364 | a fragmented or long control frame and an unknown opcode close with 1002 |
| WsSends.DataAnswered | src/websocket/session.cpp:366-400 | a data frame out of place closes with 1002, one that outgrows the limit with 1009, and no other puts anything out |
| WsSends.EndOfStream | src/websocket/session.cpp:230-246 | the end of the stream closes, with an error exactly when no close frame was sent; a failed read always with one |
| WsSends.TimerCloses | src/websocket/session.cpp:633-639 | the close timer closes a session exactly when it has sent its close frame |
| WsMessages.MessagesAreBounded | src/websocket/session.cpp:290-294 | in every run, legal or not, the partial buffer and every message delivered are within the limit |
| WsMessages.ReassembleFrom | src/websocket/session.cpp:366-400 | from the middle of any message, with any pings and pongs in between, exactly the joined messages are delivered in order |
| WsMessages.MessagesArrive | src/websocket/session.cpp:230-425 | on the wire: any fragmentation, interleaving and cut into reads delivers exactly the messages |
| WsMessages.ErrorFreeExactly | src/websocket/session.cpp:336-435 | up to a close frame the session reports an error if and only if a control frame is malformed, the data frames break the rules of section 5.4 of RFC 6455 or the limit, or, with automatic pongs, some ping finds no room behind what is pending and the answers to the pings before it |
| WsObject.SessionObject.constructor | src/websocket/session.cpp:189-199 | a new session is open and empty |
| WsObject.SessionObject.CompactReadBuffer | src/websocket/session.cpp:319-334 | compaction never changes the unread bytes and leaves an offset below the threshold and half the buffer |
| WsObject.SessionObject.NextFrame | src/websocket/session.cpp:253-314 | reading in place at the offset parses the unread bytes |
| WsObject.SessionObject.Unmask | src/websocket/session.cpp:308-311 | the unmasking loop |
| WsObject.SessionObject.ParseFrames | src/websocket/session.cpp:252-317 | the loop with offset and lazy compaction equals the specification on the unread bytes |
| WsObject.SessionObject.OnReadBytes | src/websocket/session.cpp:230-250 | a read appends and parses |
| WsObject.SessionObject.OnReadEnd | src/websocket/session.cpp:230-246 | end of stream closes or fails |
| WsObject.SessionObject.Dispatch | src/websocket/session.cpp:336-364 | frames go to their handlers, malformed control frames and unknown opcodes fail |
| WsObject.SessionObject.HandleDataFrame | src/websocket/session.cpp:366-378 | a first data frame |
| WsObject.SessionObject.HandleContinuationFrame | src/websocket/session.cpp:380-400 | a continuation frame, its limit and the finished message |
| WsObject.SessionObject.DispatchPing | src/websocket/session.cpp:427-435 | a ping and its automatic pong |
| WsObject.SessionObject.DispatchClose | src/websocket/session.cpp:444-482 | a close frame is checked, delivered and answered once |
| WsObject.SessionObject.Send | src/websocket/session.cpp:492-508 | a frame is queued or the session starts closing at the limit; `WsSends.SendAsked` says which frame |
| WsObject.SessionObject.CloseSession | src/websocket/session.cpp:510-518 | one close frame, then the timer |
| WsObject.SessionObject.FailSoftly | src/websocket/session.cpp:520-523 | an error is reported and a close queued |
| WsObject.SessionObject.FailHard | src/websocket/session.cpp:525-533 | an error is reported and the transport closed |
| WsObject.SessionObject.QueueFrame | src/websocket/session.cpp:542-546 | a frame joins the queue |
| WsObject.SessionObject.FlushNextWrite | src/websocket/session.cpp:548-559 | one write at a time |
| WsObject.SessionObject.OnWrite | src/websocket/session.cpp:561-590 | the new state after a write completes or fails |
| WsObject.SessionObject.OnCloseTimeout | src/websocket/session.cpp:633-639 | the close timer closes the transport |
| WsObject.SessionObject.ShutTransport | src/websocket/session.cpp:641-672 | closing empties the output queue |
| Trie.RoutePatternMatches | src/http/router.cpp:81-125 | the linear matcher's loop: it matches exactly when the pattern does, with the captured parameters |
| Trie.Linear | src/http/router.cpp:81-125 | parameters are found exactly when the pattern matches; `Trie.LinearIsCaptured` says which |
| Trie.GetAfterSet | src/http/route_params.cpp:5-23 | reading a parameter back gives the value stored last under its name, and storing changes no other name |
| Trie.UniqueAfterSet | src/http/route_params.cpp:5-15 | storing keeps the names unique |
| Trie.LinearIsCaptured | src/http/router.cpp:81-125 | for every match: names are unique, each name has the segment at the last position of the pattern that binds it, or the joined rest for a final wildcard, and a name the pattern does not bind has no value |
| Trie.MatchNodeIsLinearScan | src/http/router.cpp:437-586 | a trie walk finds a route if and only if some registered pattern matches linearly; it is the priority-least one, with the linear matcher's parameters and the hooks along its own path only |
| Trie.PrecedesIsStrict | src/http/router.cpp:513-585 | no pattern precedes itself or a pattern that precedes it |
| Trie.BestIsUnique | src/http/router.cpp:437-586 | the priority-least route is unique |
| Trie.AlongIsCollected | src/http/router.cpp:447-459 | the hooks along a path are those stored under the pattern's prefixes, in order |
| RouteHooks.HooksInOrder | src/http/router.cpp:447-459 | each list of hooks of a match is the concatenation of what hangs along its pattern, from the root down |
| RouteHooks.NearestHandler | src/http/router.cpp:447-459 | the exception handler of a match is the one stored nearest to the route |
| RouteHooks.HookReaches | src/http/router.cpp:220-244 | a hook attached under a prefix is added for exactly the routes under it, in its own list, behind what hangs up to the prefix and in front of what hangs below |
| RouteHooks.HandlerReplaces | src/http/router.cpp:220-244 | a fallback or exception handler replaces the one of its prefix and touches nothing else |
| RouteHooks.MergeLosesNothing | src/http/router.cpp:372-428 | a merge keeps every target and handler of both sides, and each list of hooks is the destination's followed by the source's |
| Trie.SameDataSameMatch | src/http/router.cpp:437-586 | two tries that store the same under every pattern answer every request alike |
| TrieEdit.LabelledIsTidy | src/http/router.cpp:137-218 | one pattern per node gives the shape that matching needs |
| TrieEdit.OnePatternPerNode | src/http/router.cpp:137-218 | every pattern leads to at most one node and every node is led to by one pattern |
| TrieEdit.LinkIsInvisible | src/http/router.cpp:137-218 | creating nodes changes nothing that is stored |
| TrieEdit.StoreShows | src/http/router.cpp:210-218 | storing shows under its pattern and nowhere else |
| TrieEdit.CanMergeExact | src/http/router.cpp:327-370 | validation succeeds if and only if the tries are compatible at every common pattern |
| TrieEdit.ReportIsReal | src/http/router.cpp:327-370 | whichever of the five clashes validation may report is there, at a pattern both tries have |
| RouteText.JoinSteps | src/http/router.cpp:45-67 | a pattern joined under a prefix stands for the prefix's steps followed by its own |
| RouteText.JoinSegments | src/http/router.cpp:29-67 | joining concatenates segments, whatever slashes the texts carry |
| RouteText.NormalizePrefix | src/http/router.cpp:29-43 | a normalized prefix is empty or starts with a slash |
| RoutePath.DecodePathSegment | src/http/route_path.cpp:11-37 | the percent-decoding loop |
| RoutePath.ParseRoutePath | src/http/route_path.cpp:46-72 | the splitting loop: the non-empty segments, raw and decoded, or invalid |
| RoutePath.JoinRouteSegments | src/http/route_path.cpp:74-83 | the joining loop |
| RoutePath.SegmentsConcat | src/http/route_path.cpp:46-72 | splitting distributes over a slash |
| RouteEncoding.DigitRoundTrip | src/http/route_path.cpp:11-25 | a hexadecimal digit written in either case is read back, and no other character is a digit |
| RouteEncoding.DecodeWritten | src/http/route_path.cpp:11-37 | whatever characters are percent-encoded, decoding gives the characters meant |
| RouteEncoding.DecodedIsWritten | src/http/route_path.cpp:11-37 | a segment that is decoded was written by such an encoding |
| RouteEncoding.SegmentsOfJoin | src/http/route_path.cpp:46-83 | splitting undoes joining |
| RouteEncoding.PathRoundTrip | src/http/route_path.cpp:46-83 | any path of encoded segments is read back, raw as written and decoded as meant |
| RouteEncoding.PatternRoundTrip | src/http/router.cpp:81-125 | any pattern of literals, parameters and wildcards whose text needs no escape, written as text, stands for itself |
| Router.MatchIsScan | src/http/router.cpp:593-637 | matching equals scanning the route table with the linear matcher and the priority rule; the parameters are the captured ones, read independently of how they were stored |
| Router.MountableAfter | src/http/router.cpp:293-302 | creating the prefix's node does not change what may be mounted there |
| Router.MountShows | src/http/router.cpp:293-311 | after a merge every pattern under the prefix holds both routers' data, every other what it held |
| Router.MountDisjoint | src/http/router.cpp:327-370 | compatible tries register no method twice under one pattern |
| Router.MountedText | src/http/router.cpp:313-325 | a mounted route's text stands for the prefix's steps followed by its own |
| Router.HoldsAfterAdd | src/http/router.cpp:210-218 | storing one target adds exactly one route to the table |
| Router.RouterObject.constructor | include/uvpp/protocols/http/router.hpp:499-500 | a new router has no routes |
| Router.RouterObject.AddRoute | src/http/router.cpp:137-218 | success adds exactly that route; each failure has the error the code gives and changes no match |
| Router.RouterObject.Descend | src/http/router.cpp:155-208 | walking down and creating nodes changes nothing stored, fails exactly where names or wildcards clash, and creates nothing where the pattern was there |
| Router.RouterObject.AttachTo | src/http/router.cpp:220-244 | a hook or handler is stored under the prefix only |
| Router.RouterObject.EnsurePrefixNode | src/http/router.cpp:246-291 | the prefix's node, with nothing stored changed, or the prefix's error |
| Router.RouterObject.FindMatch | src/http/router.cpp:588-637 | the result is the linear scan's, route, captured parameters and hooks, or none |
| Router.RouterObject.AllowedMethods | src/http/router.cpp:698-731 | exactly the methods under which some registered pattern accepts the path, in order |
| Router.RouterObject.ValidateMountNode | src/http/router.cpp:327-370 | the recursion over both tries decides mergeability and reports a clash in the order of the checks: stored routes, the two fallbacks, then static children, parameter and wildcard, each name before its child |
| Router.RouterObject.MergeNode | src/http/router.cpp:372-428 | everything at and below the source node is added below the destination and nothing else changes |
| Router.RouterObject.MoveSubtree | src/http/router.cpp:430-435 | a fresh node receives the whole source subtree |
| Router.RouterObject.Mount | src/http/router.cpp:293-311 | with a valid prefix it fails if and only if something is in the way, with the clash validation ends with; success makes the route table the disjoint union with the mounted one under the prefix and adds the counts; a failure changes no match |
| Disposition.FindUnquoted | src/http/multipart.cpp:112-134 | the scanning loop |
| Disposition.ParseQuotedValue | src/http/multipart.cpp:62-96 | the unquoting loop |
| Disposition.QuotesHideSeparators | src/http/multipart.cpp:62-134 | the splitter and the value reader agree on where a quoted value ends |
| Disposition.QuotingRoundTrip | src/http/multipart.cpp:343-397 | any control-free non-empty name and control-free file name, quoted with escapes, parse back to exactly that pair |
| DispositionPrint.DispositionRoundTrip | src/http/multipart.cpp:343-397 | parameters in any order, quoted or as tokens, known or not, are read as exactly the name and file name among them; without a name, or with an empty one, it is refused |
| Disposition.ParseContentDisposition | src/http/multipart.cpp:343-397 | the parameter loop |
| Multipart.CountLines | src/http/multipart.cpp:140-152 | the line counting loop |
| Multipart.ParsePartHeaderBlock | src/http/multipart.cpp:196-265 | the header loop, with its limits and errors; `FormPrint.HeadRoundTrip` says what it reads |
| Multipart.FindNextMultipartDelimiter | src/http/multipart.cpp:165-189 | the delimiter search loop |
| Multipart.ParseMultipartForm | src/http/multipart.cpp:877-988 | the whole-buffer parsing loop, with its limits and errors; `FormPrint.FormRoundTrip` says what it reads |
| FormPrint.HeadRoundTrip | src/http/multipart.cpp:196-265 | printed headers are read back as name, file name and all headers in order, or refused for exactly the limits they exceed |
| FormPrint.FormRoundTrip | src/http/multipart.cpp:877-988 | any list of fields and files with names and file names of any control-free text, further headers and bodies free of the delimiter, printed, is read back as exactly those parts in order, or refused for exactly the limits it exceeds |
| FormPrint.StreamRoundTrip | src/http/multipart.cpp:540-662 | so does the stream, on every cut and every pause, when the header blocks leave it room |
| FormPrint.HeadIsSound | src/http/multipart.cpp:196-265 | an accepted head says what its one disposition header says, within the limits |
| FormPrint.AcceptedIsSound | src/http/multipart.cpp:877-988 | so does every part of every accepted form, and the form is within all limits |
| MultipartStream.StreamObject.constructor | src/http/multipart.cpp:434-452 | a new stream waits for the first boundary |
| MultipartStream.StreamObject.ParseLoop | src/http/multipart.cpp:540-649 | the phase loop over the buffer reaches the state the parse function describes |
| MultipartStream.StreamObject.ParseBody | src/http/multipart.cpp:586-646 | one turn inside a body |
| MultipartStream.StreamObject.ParsePartHeaders | src/http/multipart.cpp:502-538 | opening a part with the name, file name and headers its block says |
| MultipartStream.StreamObject.EmitCurrentData | src/http/multipart.cpp:1162-1193 | emitting data within the part's limit |
| MultipartStream.StreamObject.EndCurrentPart | src/http/multipart.cpp:495-500 | ending a part |
| MultipartStream.StreamObject.FailWith | src/http/multipart.cpp:474-487 | failing once, never after the end |
| MultipartStream.StreamObject.Receive | src/http/multipart.cpp:1244-1253 | received bytes are counted, appended and parsed |
| MultipartStream.StreamObject.PauseStream | src/http/multipart.cpp:453-461 | pausing |
| MultipartStream.StreamObject.ResumeStream | src/http/multipart.cpp:463-472 | resuming parses what is buffered |
| MultipartStream.StreamObject.FinishStream | src/http/multipart.cpp:651-662 | the end of the body is an error unless the stream is done |
| MultipartRefine.SearchMeaning | src/http/multipart.cpp:165-189 | what a search result says about all delimiter lines of the text |
| MultipartRefine.SearchInWindow | src/http/multipart.cpp:586-622 | on a window, the delimiter is found or what may be emitted ends before it |
| MultipartRefine.StreamFollowsForm | src/http/multipart.cpp:540-649 | at every moment of every run over a prefix of an accepted body, whatever cut and pauses: not failed, ended parts are the form's, and emitted data plus retained buffer is what was received of the open part |
| MultipartRefine.StreamRefinesForm | src/http/multipart.cpp:540-662 | once all of an accepted body has arrived, an unpaused stream is done with exactly the form's parts |
| MultipartRefine.RetentionBound | src/http/multipart.cpp:602-621 | parsing that stops unpaused inside a body keeps at most the delimiter and one byte |
| MultipartRefine.RunRetains | src/http/multipart.cpp:540-649 | so does every unpaused state inside a body of every run, whatever the bytes, cuts and pauses |
| MultipartRefine.CrowdedBreaks | src/http/multipart.cpp:571 | an accepted body with a header block within three bytes of the limit has a cut on which the stream fails |
| MultipartRefine.StreamingExact | src/http/multipart.cpp:540-662 | stream and form agree on all runs if and only if every header block is at least three bytes under the limit |
| StreamAccepts.StreamIsForm | src/http/multipart.cpp:540-662 | over any bytes within the total limit, cuts and pauses: a stream that is done has exactly the parts the form parser reads, under the same limits, from the bytes up to some point; where it failed the form parser refuses with the same error, or at a limit for a missing end, unless a header block is within three bytes of its limit |
| StreamAccepts.TotalEnforced | src/http/multipart.cpp:1244-1253 | in every run, past the total limit the stream is done or has failed, and neither state is ever left |
| StreamAccepts.PauseTakesEffect | src/http/multipart.cpp:540-649 | a stream is paused exactly when a callback asked for it, and no callback runs behind that one but the end of the body behind its last part |
| StreamAccepts.PausedIsQuiet | src/http/multipart.cpp:453-472 | while paused, what arrives is only kept: no callback, no change to any part, no failure but the total limit |
| StreamAccepts.ResumeGoesOn | src/http/multipart.cpp:463-472 | resuming goes on with what was kept until a callback pauses it again |
| FormIndex.StableSortIsStable | src/http/multipart.cpp:850-865 | sorting orders names and keeps each name's parts in order |
| FormIndex.GroupIsFilter | src/http/multipart.cpp:766-782 | a group is the order-preserving filter of the parts by its name |
| FormIndex.FieldsAndFiles | src/http/multipart.cpp:830-848 | every part is indexed as a field or as a file, as it has no file name or one, as often as in the body |
| FormIndex.BuildGroups | src/http/multipart.cpp:854-861 | the grouping loop tiles the sorted parts, one group per name |
| FormIndex.LookUp | src/http/multipart.cpp:766-782 | the lookup loop returns exactly the parts of the name |
| FormIndex.Form.RebuildIndexes | src/http/multipart.cpp:830-875 | the index describes the parts |
| FormIndex.Form.FieldsNamed | src/http/multipart.cpp:766-773 | the fields of a name in the order of the body |
| FormIndex.Form.FilesNamed | src/http/multipart.cpp:775-782 | the files of a name in the order of the body |
| Url.HostPortRoundTrip | src/url.cpp:185-218 | a parsed host and port, printed, parse to themselves |
| Url.AuthorityRoundTrip | src/url.cpp:167-237 | a parsed authority, printed, parses to itself |
| Url.TailRoundTrip | src/url.cpp:264-293 | path, query and fragment, printed, parse to themselves |
| Url.HrefRoundTrip | src/url.cpp:239-296 | for every accepted input, parsing `href` gives the identical URL |
| Url.AbsoluteFormRoundTrip | src/url.cpp:423-432 | the absolute-form target parses to the URL without fragment if and only if the path is not empty, as it never is with an authority |
| Url.PartsRoundTrip | src/url.cpp:162-296 | any scheme, authority, path, query and fragment in normal form, printed, are read back as they are |
| Url.AuthorityOfParts | src/url.cpp:162-237 | any user name, password, named or bracketed host and port, printed, are read back part by part |
| Url.Ipv4PartValue | src/url.cpp:87-116 | a part of one to three digits is accepted exactly when its value is at most 255 |
| Url.FourParts | src/url.cpp:87-116 | a host of dotted parts is an IPv4 literal exactly when it has four |
| Url.AbsoluteIgnoresBase | src/url.cpp:311-355 | an absolute reference is read by itself whatever the base, accepted or not; every accepted URL's `href` resolves to that URL against any base |
| Url.DirectoryOf | src/url.cpp:340-351 | the directory a relative path is glued to ends at the base path's last slash |
| Url.AuthorityReference | src/url.cpp:311-355 | a reference `//authority...` against an accepted base is the base's scheme with that authority and tail, with the errors of a bad authority |
| Url.EmptyReference | src/url.cpp:311-355 | the empty reference is the base itself |
| Url.RelativeKeepsAuthority | src/url.cpp:315-355 | a reference with neither scheme nor `//` resolves exactly when it has no whitespace, keeps the base's scheme and authority, and has the tail of the base directory followed by the reference |
| Url.RelativeInventsAuthority | src/url.cpp:315-355 | against a base without an authority any result has one |
| Sse.LineEnd | src/http/response.cpp:115-117 | the inner scanning loop |
| Sse.AppendSplitLines | src/http/response.cpp:110-145 | the line-splitting loop appends one field line per line, a final empty one behind a trailing terminator |
| Sse.MakeFrame | src/http/response.cpp:641-675 | the frame of each accepted call |
| Sse.LinesAreNormalized | src/http/response.cpp:110-133 | the lines joined by LF are the value with each CRLF, CR or LF made LF |
| Sse.SseRoundTrip | src/http/response.cpp:641-675 | reading everything written by any sequence of accepted calls under section 9.2 of the HTML Living Standard dispatches exactly one message per `send`, with its event, the last id and the normalized data |

## Left out

- Router fallback handlers, hook wrapping and option setters: `fallback` walks the trie as matching does; the wrappers are templates over user types.
- Method tables, status tables, header storage and the text of heads: parameters of the models.
- Url: the parser fills one local object field by field; it is modelled as functions on values, with no aliasing to lose. Port numbers and effective ports are conversions only.
- ServerSession: slots are values in a table in request order instead of shared objects; `send_error`, upgrades, the exception path that resets a response, and drain accounting after cancelled slots are not part of the runs.
- ServerSession: drain callbacks are atomic marks on the slots. In src/http/server.cpp:1123-1135 they run inside an iteration over the slot queue, and a callback that completes the front response pops from that queue; what the iteration then does is not modelled.
- ServerSilentClose.InOrderExactly: while a silent close still waits in the queue only the necessary half is stated; whether anything can then be queued behind it depends on the room left for requests.
- WsSession: byte mode, the callbacks' own calls back into the session, and frames after the upgrade hand-off are left out; the upgrade's extra bytes are a first read.
- Upload: what a drain callback writes is a later event, which leaves the same state; DNS, connect, TLS and redirects of the client are left out.
- Pool: an idle entry always has its stream; timers are the event that an idle entry expires.
- Multipart: the boundary is a parameter; the part handler takes each part as a stream, so text collection and unconsumed parts are left out. A callback may pause the stream but not resume it before it returns.
- StreamAccepts.StreamIsForm: bytes behind the final delimiter are ignored by the stream and rejected by the form, so the form reads the bytes up to some point; a file limit of zero is unlimited for the stream only, and the stream keeps nothing in memory, so the form is taken under those limits.
- TLS, DNS, transports, static files, JSON, the upgrade handshake and the adapter over the HTTP tokenizer: decided by other libraries.
