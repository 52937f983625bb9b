# Verified model of the HTTP server core

A Dafny model of the core of an HTTP/1.1 server framework, with proofs about it:
what the server makes of the bytes it receives and sends, what one connection does
from its first byte to its close, and what the whole server does from start to
shutdown while listeners are replaced under it.

- **Bytes in and out.** The chunked decoder (`ChunkedDecoder.dfy`), proved against
  a byte-at-a-time machine (`ChunkedSpec.dfy`) and a declarative grammar
  (`ChunkedGrammar.dfy`; section 7.1 of RFC 9112), with the encoder as its inverse
  (`ChunkedCodec.dfy`) and its line buffer measured (`ChunkedLineBuffer.dfy`); the
  receive buffer (`RecvBuffer.dfy`); the head parser and a printer for it
  (`RequestHead.dfy`, `RequestWire.dfy`, `Utf8.dfy`); body framing and the
  client's wish for keep-alive (`BodyFraming.dfy`; section 6.3 of RFC 9112), stated
  by what the headers spell in `HeaderNames.dfy`; the read loops and pipelining
  (`Connection.dfy`).
- **One connection.** The streaming channel and writer (`Streaming.dfy`), request
  extensions and gates (`Extensions.dfy`), the keep-alive loop against an
  adversarial environment (`ConnectionLoop.dfy`). The loop emits a trace; every
  trace is accepted by a monitor that knows what the environment does in each turn,
  and `ConnectionTraces.dfy` proves what accepted traces look like, event by event.
- **The server's life.** A transition system of the accept loop, rebind,
  generations, background drains, detached sessions and the final drain
  (`Lifecycle.dfy`), its invariant (`LifecycleSafety.dfy`) and that every step
  keeps it (`LifecycleSteps.dfy`), what never goes back along a run
  (`LifecycleRuns.dfy`), the promises themselves (`LifecycleTheorems.dfy`) and the
  way back from a shutdown (`LifecycleReturn.dfy`); `LifecyclePriority.dfy` has the
  order of the race. `Backlog.dfy` and `Cancel.dfy` hold the backlog
  recovery loop and the cancel cell; `LifecycleCancel.dfy` drives the cells by the
  steps of a run, and `LifecycleConnections.dfy` lets the connection loop read its
  generation's flag in a run. Beside the cell, `Cancel.dfy` also says what the two
  designs warned against in `crates/core/src/plugin.rs:91-100` and `155-162` would
  lose (`PlainSendLosesUnheardFires`, `ChangeMissesEarlierFires`, `LateSubscriber`).
- **Cookies.** Reading (`Cookie.dfy`) and writing (`SetCookie.dfy`), which agree, and
  what each chain of builders sets (`CookieAttributes.dfy`).

`dafny verify dfyconfig.toml` checks everything. Atomics are sequentially
consistent and a shutdown flag, once set, stays set. Clocks, time-outs, writes,
socket reads, gates, handlers and scheduling are parameters or free choices of the
environment, so the results hold for all of them.

Three places where the code does less than is said of it; the model follows the
code:

- A read deadline can be later than start plus `max_connection_lifetime`, because
  the elapsed time and the base of the deadline are two clock readings
  (`crates/core/src/server.rs:2505-2535`). `DeadlineBound` gives the excess,
  `DeadlineWithinLifetime` and `DeadlineWithinLifetimeUpToGap` say exactly for which
  configurations it cannot happen, `DeadlineCanPassLifetime` gives a case.
- The final drain asks for at most `u32::MAX` permits. The comment at
  `crates/core/src/server.rs:1205-1208` takes this for "all permits" even beyond
  that; it is not: a session may survive a clean return, and a join may wait for a
  task without a bound (`CleanReturnIsCompleteExactlyWhen`,
  `SessionOutlivesCleanReturn`, `ShutdownReturnsExactlyWhen`, `JoinWithoutEnd`).
- `MAX_CHUNK_LINE_BYTES` counts the carriage return, so that a chunk line has at
  most 255 bytes of its own (`crates/http/src/chunked.rs:338-359`). The byte that
  makes a line too long is still in the buffer when the error is returned:
  `FeedBounds`, `LineOvershootsExactly` and `BufferOvershootsExactly` say exactly
  when, `LineBufferCanOvershoot` gives 257 bytes that do it.

## Model

| member | source | states |
|---|---|---|
| `ChunkedSpec.FeedSplit` | crates/http/src/chunked.rs:256-329 | decoding one piece after another from any decoder state gives the state, output, consumed count and error of decoding them in one go |
| `ChunkedSpec.FragmentationInvariance` | crates/http/src/chunked.rs:256-359 | for every list of pieces, feeding them in order equals feeding their concatenation at once |
| `ChunkedSpec.FeedConsumed` | crates/http/src/chunked.rs:256-329 | an unfinished run has consumed all of its input, a finished one never more than it |
| `ChunkedSpec.FinalAnswerIsExact` | crates/http/src/chunked.rs:256-329 | a final answer (complete or error) is not changed by more bytes, and no prefix shorter than the consumed bytes gives a final answer |
| `ChunkedSpec.FeedBounds` | crates/http/src/chunked.rs:262-358 | in every run the output is counted exactly and within the body limit; without an error, output plus declared remainder, chunk count and line buffer are within theirs; the line buffer is over its limit, by one byte, if and only if the run failed with ChunkLineTooLong |
| `ChunkedLineBuffer.LineOvershootsExactly` | crates/http/src/chunked.rs:338-359 | from the start of a line, the buffer passes its limit on that line if and only if more than that many bytes precede its first line feed |
| `ChunkedLineBuffer.LongLineOvershoots` | crates/http/src/chunked.rs:338-359 | such a line stops the decoder with exactly its first limit-plus-one bytes in the buffer and consumed |
| `ChunkedLineBuffer.BufferOvershootsExactly` | crates/http/src/chunked.rs:256-359 | over a whole run the buffer passes its limit if and only if the decoder arrives at the start of some line with more than that many bytes and no line feed among them |
| `ChunkedLineBuffer.LineBufferCanOvershoot` | crates/http/src/chunked.rs:338-359 | 257 bytes that leave 257 bytes in the buffer |
| `ChunkedDecoding.ChunkedDecoder.constructor` | crates/http/src/chunked.rs:239-247 | a new decoder is the start state of the byte machine |
| `ChunkedDecoding.ChunkedDecoder.Decode` | crates/http/src/chunked.rs:256-329 | the slice-wise decoder with its cross-call line buffer answers, consumes, outputs and ends up exactly as the byte-at-a-time machine, for every state and input |
| `ChunkedDecoding.ChunkedDecoder.TakeLine` | crates/http/src/chunked.rs:338-359 | the line scan: a line up to its CRLF, nothing yet, or the bare-LF and too-long errors, with what stays in the line buffer |
| `ChunkedDecoding.ChunkedDecoder.DecodeData` | crates/http/src/chunked.rs:288-306 | the chunk-data branch keeps the run on the byte machine's course, stopping exactly when the input is used up |
| `ChunkedDecoding.ChunkedDecoder.DecodeLine` | crates/http/src/chunked.rs:264-329 | the three line branches keep the run on the byte machine's course |
| `ChunkedDecoding.ChunkedDecoder.AcceptLine` | crates/http/src/chunked.rs:269-327 | what a complete line does to the decoder: chunk announced, last chunk, end, or one of the errors |
| `ChunkedDecoding.FeedScans` | crates/http/src/chunked.rs:338-359 | reading a line by scanning the slice equals feeding it byte by byte |
| `ChunkedGrammar.ParseSizeLine` | crates/http/src/chunked.rs:369-379 | a size line of hex digits and an optional extension parses to the value of its digits, or fails if that exceeds 64 bits |
| `ChunkedSpec.HexDigitsAreSpelled` | crates/http/src/chunked.rs:369-379 | the sixteen digits in both cases, with their values |
| `ChunkedSpec.HexDigitsHaveSpelling` | crates/http/src/chunked.rs:369-379 | and no other byte is a digit |
| `ChunkedGrammar.Completeness` | crates/http/src/chunked.rs:256-329 | every sentence of the trailer-free chunked grammar within the limits is accepted, whatever follows it, with its payload as output and its length as the consumed count |
| `ChunkedGrammar.SoundFrom` | crates/http/src/chunked.rs:256-329 | every completed run, from any point between two chunks, has read a sentence of the grammar |
| `ChunkedGrammar.DecoderAcceptsExactlyTheGrammar` | crates/http/src/chunked.rs:256-379 | complete after k bytes with this output if and only if the first k bytes are a sentence with this payload within line, count and size limits |
| `ChunkedGrammar.SentencesAreUnambiguous` | crates/http/src/chunked.rs:256-379 | no input starts with two different sentences: length and payload are determined |
| `ChunkedCodec.Hex` | crates/http/src/chunked.rs:65 | the printed length consists of lower-case hex digits without leading zeros whose value is the number |
| `ChunkedCodec.EncodeChunk` | crates/http/src/chunked.rs:61-69 | appends the chunk as the grammar wants it, nothing for empty data |
| `ChunkedCodec.EncodeTerminator` | crates/http/src/chunked.rs:84-86 | appends the last chunk and the empty line |
| `ChunkedCodec.EncodeDecodeRoundTrip` | crates/http/src/chunked.rs:61-98 | encoded chunks and terminator decode to their concatenation, consuming exactly the encoding, if and only if the non-empty chunks plus one are within MAX_CHUNK_COUNT and the total within the body limit; otherwise the error is one of the two |
| `ChunkedCodec.StrictPrefixNeverCompletes` | crates/http/src/chunked.rs:61-86 | no strict prefix of an encoded stream completes, whatever the limits |
| `RecvBuffers.RecvBuffer.Consume` | crates/http/src/buffer.rs:99-105 | the unread bytes lose their first n |
| `RecvBuffers.RecvBuffer.TakeExact` | crates/http/src/buffer.rs:116-123 | the vector is handed out exactly when it is the n unread bytes from position 0; otherwise nothing changes |
| `RecvBuffers.RecvBuffer.Compact` | crates/http/src/buffer.rs:132-142 | moving the unread bytes to the front keeps them |
| `RecvBuffers.RecvBuffer.ReserveForRead` | crates/http/src/buffer.rs:132-142 | room for a full read, unread bytes kept |
| `RecvBuffers.RecvBuffer.ShrinkIfOversized` | crates/http/src/buffer.rs:154-168 | unread bytes kept; nothing at all happens at or below the retained capacity |
| `RecvBuffers.RecvBuffer.ReadChunk` | crates/http/src/buffer.rs:177-183 | unread bytes plus bytes still on the socket are the same before and after; zero exactly at the end of the stream |
| `RequestHeads.HeadAnswerIsStable` | crates/http/src/request.rs:489-577 | an answer of the head parser, complete or error, stands when more bytes follow |
| `RequestHeads.HeadPrefixIsIncomplete` | crates/http/src/request.rs:489-577 | every prefix shorter than a complete head is incomplete |
| `RequestWires.UnendedHeadIsBounded` | crates/http/src/request.rs:489-508 | without an empty line the parser waits, and refuses at 16384 bytes |
| `RequestWires.FindExactly` | crates/http/src/request.rs:609-614 | the first occurrence, and none exactly if there is none |
| `RequestWires.ParsedHeadIsGood` | crates/http/src/request.rs:489-577 | every head returned has a token for a method, a target and values without control characters, token names, valid UTF-8, at most 100 headers and 16384 bytes |
| `RequestWires.ReprintedHeadIsRead` | crates/http/src/request.rs:489-577 | written out again it is read the same, if it still fits |
| `RequestWires.TokenExactly` | crates/http/src/request.rs:668-686 | tokens are letters, digits and the fifteen signs |
| `RequestWires.VersionDecides` | crates/http/src/request.rs:741-782 | with method and target in order the version alone decides about the line |
| `HeaderNames.VersionExactly` | crates/http/src/request.rs:788-798 | HTTP/1.1 and HTTP/1.0 to the letter; which error otherwise |
| `Utf8.ValidUtf8Exactly` | crates/http/src/request.rs:560-563 | a text passes the check if and only if it encodes Unicode scalar values (RFC 3629) |
| `RequestWires.HeadRoundTrip` | crates/http/src/request.rs:489-577 | a printed well-formed head, whatever follows, is read back as itself and to its last byte exactly when it is within the byte and header-count limits; beyond them the error is the documented one |
| `RequestWires.RequestLineIsRead` | crates/http/src/request.rs:741-782 | method, target and version of a printed request line come back |
| `RequestWires.HeaderLineIsRead` | crates/http/src/request.rs:816-844 | name and value of a printed header come back, optional white space aside |
| `BodyFraming.BodyLengthWithLimit` | crates/http/src/body.rs:191-231 | the header scan agrees with the declarative framing decision |
| `BodyFraming.FramingIsUnambiguous` | crates/http/src/body.rs:191-231 | chunked, fixed(n) or no body, each if and only if the headers say so and nothing else; in particular never both |
| `HeaderNames.FramingExactly` | crates/http/src/body.rs:191-231 | each framing and each error if and only if the headers, their names in any mix of cases, say so |
| `HeaderNames.AnySpellingFrames` | crates/http/src/body.rs:191-231 | one length header, however its name is spelled, frames a body of that length |
| `HeaderNames.EqIgnoreCaseExactly` | crates/http/src/body.rs:195-204 | equal but for the case of ASCII letters, byte by byte |
| `HeaderNames.SpellsExactly` | crates/http/src/body.rs:195-204 | a comparison with a word succeeds exactly for its spellings |
| `HeaderNames.NamedExactly` | crates/http/src/body.rs:199-203 | the values found are those of the headers whose names spell the word |
| `HeaderNames.ContentLengthSpelled` | crates/http/src/body.rs:197 | the compared name is "content-length" |
| `HeaderNames.TransferEncodingSpelled` | crates/http/src/body.rs:201 | the compared name is "transfer-encoding" |
| `HeaderNames.ChunkedSpelled` | crates/http/src/body.rs:204-205 | the compared coding is "chunked" |
| `HeaderNames.WhitespaceExactly` | crates/http/src/body.rs:204-205 | what is trimmed is exactly the white space of Unicode |
| `HeaderNames.PaddedExactly` | crates/http/src/body.rs:204-205 | a trimmed comparison succeeds exactly for the word with white space around it |
| `HeaderNames.ShouldKeepAliveExactly` | crates/http/src/connection.rs:123-143 | keep-alive is wanted if and only if no Connection header lists "close" and the version is HTTP/1.1 or one lists "keep-alive", in any case and with any white space |
| `HeaderNames.ListsExactly` | crates/http/src/connection.rs:124-131 | a list names a word exactly if some member between its commas is the word with white space around it |
| `HeaderNames.ConnectionSpelled` | crates/http/src/connection.rs:126 | the compared name is "connection" |
| `HeaderNames.CloseSpelled` | crates/http/src/connection.rs:131 | the compared token is "close" |
| `HeaderNames.KeepAliveSpelled` | crates/http/src/connection.rs:140 | the compared token is "keep-alive" |
| `BodyFraming.ContentLengthRoundTrip` | crates/http/src/body.rs:237-244 | a decimal length is read back exactly if it fits 64 bits |
| `Connections.ReadHead` | crates/http/src/connection.rs:233-252 | reads until the head parser answers; the answer is that of the whole stream, for every fragmentation, and no byte is lost |
| `Connections.ReadBody` | crates/http/src/connection.rs:265-287 | the same body and the same remainder whether the buffer is handed out or copied; end of stream is an error |
| `Connections.ReadBodyChunked` | crates/http/src/connection.rs:299-322 | the body is what the decoder makes of the whole stream, and the remainder starts right after it |
| `Connections.DecodeUnread` | crates/http/src/connection.rs:299-322 | one decoder call on the unread bytes stays on the course of the whole stream and leaves exactly the bytes it did not consume |
| `Connections.ReadBodyOf` | crates/http/src/connection.rs:204-226 | the body that the head announces, whatever its framing, and the stream right after it |
| `Connections.ReadRequestWithLimit` | crates/http/src/connection.rs:204-226 | one request is exactly the next request of unread bytes plus stream, and what stays is the stream after it |
| `Connections.NextRequestIsStable` | crates/http/src/connection.rs:204-226 | a request read completely does not depend on what follows it |
| `Connections.ReadConnection` | crates/http/src/connection.rs:204-322 | repeated reads, for every fragmentation, give the transcript of the byte stream |
| `Connections.Pipelining` | crates/http/src/connection.rs:204-322 | requests sent back to back are read as that list, in order, and then the end |
| `Connections.ChunkedRequestWire` | crates/http/src/connection.rs:299-322 | a head announcing chunked framing plus encoded chunks within the limits is one request with their concatenation as body |
| `Connections.FixedRequestWire` | crates/http/src/connection.rs:265-287 | a head announcing a length plus that many bytes is one request with these bytes as body |
| `Connections.PrintedRequestsPipeline` | crates/http/src/connection.rs:204-322 | any list of well-formed requests, printed one after the other, is read back as that list and then the end |
| `Connections.BodylessIsSendable` | crates/http/src/body.rs:191-231 | a well-formed head without framing headers is one of those requests |
| `Connections.MeasuredIsSendable` | crates/http/src/body.rs:191-231 | so is one with the length of its body, that header's name in any mix of cases |
| `Streaming.StreamChannel.constructor` | crates/core/src/streaming.rs:129-143 | a new channel is empty, has one producer and room for at least one event |
| `Streaming.StreamChannel.Produce` | crates/core/src/streaming.rs:171-197 | a send or finish enters the queue only with room in it; handles are counted; the channel stays first-in first-out and within its capacity |
| `Streaming.StreamChannel.Recv` | crates/core/src/streaming.rs:216-227 | the oldest event; aborted exactly when the queue is empty and no producer is left; nothing else of the channel changes |
| `Streaming.PrefixDecodes` | crates/core/src/server.rs:3158-3241 | the peer's decoder completes on a prefix of the stream exactly when it is all of it, and then yields the chunks |
| `Streaming.WriteBody` | crates/core/src/server.rs:3158-3241 | passes exactly the rounds up to the first that brings no chunk or cannot write it, and completes if and only if that round brings the end marker and its write succeeds; the body is then that of the chunks before the marker, and otherwise, for HTTP/1.1, a strict prefix of it |
| `Streaming.WriteChunk` | crates/core/src/server.rs:3164-3192 | a chunk is on the wire exactly if it is empty or its write succeeds |
| `Streaming.WriteTerminator` | crates/core/src/server.rs:3193-3214 | the body is complete on the wire exactly if the terminator's write succeeds, or the version needs none |
| `Streaming.NextOutcome` | crates/core/src/server.rs:3159-3163 | a round receives the oldest event its producers have left |
| `Streaming.SteadyProducerCompletes` | crates/core/src/streaming.rs:171-197 | a producer that sends any chunks and finishes, with no write failing, completes the stream with those chunks |
| `Streaming.BodylessExactly` | crates/http/src/response.rs:861-863 | no body exactly for 1xx, 204 and 304 |
| `Streaming.LimitsExist` | crates/http/src/chunked.rs:239-247 | for every list of chunks there is a decoder with large enough limits |
| `Streaming.WriteStreamingResponse` | crates/core/src/server.rs:2960-3242 | reports completion if and only if the head was written and, for a status with a body, the rounds complete the stream; for HTTP/1.1 the peer's decoder completes exactly then, with exactly the chunks received; keep-alive decided before the head and again at the end |
| `Extensions.RequestExtensions.Insert` | crates/http/src/extensions.rs:64-71 | refused, with the value handed back, exactly if the type is there; otherwise the value is what a lookup finds |
| `Extensions.FirstInsertWins` | crates/http/src/extensions.rs:64-81 | after any inserts, the value of a type is the first one inserted |
| `Extensions.FirstInsertIsSeen` | crates/http/src/extensions.rs:64-81 | the first insert of a type not there before is what a lookup finds after all inserts |
| `Extensions.TypesStayDistinct` | crates/http/src/extensions.rs:64-71 | no type is there twice |
| `Extensions.GatesCalled` | crates/core/src/server.rs:3247-3259 | gates run up to and including the first that rejects |
| `ConnectionLoop.DeadlineBound` | crates/core/src/server.rs:2505-2535 | a read deadline is never more than the read time-out away, is the earlier of time-out and remaining lifetime while the clock has room, and passes start plus lifetime by at most the time between the two clock readings, even when the addition overflows |
| `ConnectionLoop.DeadlineWithinLifetime` | crates/core/src/server.rs:2505-2535 | for a configuration, all deadlines of all clock readings are within the lifetime if and only if the lifetime is zero or the clock ends before it |
| `ConnectionLoop.DeadlineWithinLifetimeUpToGap` | crates/core/src/server.rs:2505-2535 | the same with the two readings at most a given number of ticks apart: exactly if that is zero, the lifetime is zero, the clock ends before it, or it is one tick and the read time-out is zero |
| `ConnectionLoop.DeadlineCanPassLifetime` | crates/core/src/server.rs:2505-2535 | a concrete configuration and clock for which the deadline is after start plus lifetime |
| `ConnectionLoop.ArmRead` | crates/core/src/server.rs:2505-2570 | the read starts exactly while lifetime is left; a lifetime over or a time-out closes without a reply |
| `ConnectionLoop.ReadNext` | crates/core/src/server.rs:2545-2581 | one read of the loop gives the next request of the whole stream, its end, or the error that ends it |
| `ConnectionLoop.RunGates` | crates/core/src/server.rs:3247-3259 | exactly the gates up to the first rejection are called, and the extensions are what these inserted |
| `ConnectionLoop.Respond` | crates/core/src/server.rs:2628-2648 | the response hook follows a complete write and only that; an incomplete one closes |
| `ConnectionLoop.HandleUpgrade` | crates/core/src/server.rs:2658-2726 | delegated, with the permit, exactly if the plugin takes it and the flag is not set; otherwise refused; the connection ends |
| `ConnectionLoop.RefuseUpgrade` | crates/core/src/server.rs:2672-2723 | 503 under the flag, 501 without a plugin, no hook, then the close |
| `ConnectionLoop.DelegateUpgrade` | crates/core/src/server.rs:2690-2725 | the session takes over and the loop ends |
| `ConnectionLoop.HandleApp` | crates/core/src/server.rs:2733-2885 | application, then its status through the mappers, then the response, done exactly if the turn's writes for it succeed; the loop goes on exactly if the second keep-alive decision stands |
| `ConnectionLoop.WriteStream` | crates/core/src/server.rs:2767-2809 | a streamed response, done exactly if head and rounds complete it, recorded with the chunks and bytes on the wire |
| `ConnectionLoop.WritePlain` | crates/core/src/server.rs:2857-2885 | a response in one piece under the second keep-alive decision, done exactly if its write succeeds |
| `ConnectionLoop.HandleRejection` | crates/core/src/server.rs:2612-2649 | the gate's response under the first keep-alive decision, done exactly if its write succeeds |
| `ConnectionLoop.AfterGates` | crates/core/src/server.rs:2654-2885 | with all gates passed, the permit goes exactly with an upgrade a plugin takes before the flag, and only the application may keep the connection |
| `ConnectionLoop.HandleRequest` | crates/core/src/server.rs:2583-2885 | one turn keeps the trace within the rules; going on implies keep-alive, no shutdown flag at the read and budget left |
| `ConnectionLoop.ReplyToError` | crates/core/src/server.rs:2571-2577 | a failed read is answered if its error has a status, and ends the connection |
| `ConnectionLoop.ErrorStatusExactly` | crates/core/src/server.rs:3275-3303 | which errors are answered with 431, 505, 413 and 501, which with no answer at all, and that every other gets 400 |
| `ConnectionLoop.HandleConnection` | crates/core/src/server.rs:2459-2887 | against every environment and every fragmentation the trace is allowed by the rules and ends in a close; at most max(1, max_requests_per_connection) requests are read; they are the first ones on the wire, in order, all of them if the peer closed or a read failed; the permit leaves exactly with a delegated upgrade, which gets the bytes that follow its request |
| `ConnectionTraces.ReadsAreBounded` | crates/core/src/server.rs:2488-2603 | at most max(1, max_requests_per_connection) reads, at most one of them after the shutdown flag is set |
| `ConnectionTraces.ReadsAreRemembered` | crates/core/src/server.rs:2545-2583 | the requests recorded for a run are those of its read events, and a failure is recorded exactly if a read failed |
| `ConnectionTraces.CloseIsHonest` | crates/core/src/server.rs:2857-2885 | after a response without keep-alive nothing is read any more |
| `ConnectionTraces.KeepAliveExactly` | crates/core/src/server.rs:2599-2603 | a response announces keep-alive if and only if the server enables it, no Connection header lists "close" and (before HTTP/1.1) one lists "keep-alive", the budget of max(1, max_requests_per_connection) is not used up, and lifetime and flag allow it at the first check and again right before the write |
| `ConnectionTraces.DrainContract` | crates/core/src/server.rs:2599-2677 | a request read after the flag is answered without keep-alive and never delegated, and there is at most one |
| `ConnectionTraces.NoReadAfterLate` | crates/core/src/server.rs:2599-2603 | after a request read under the flag nothing more is read, nor is it tried |
| `ConnectionTraces.RecoveredConnectionServesAtMostOne` | crates/core/src/server.rs:2099-2129 | a connection that starts under a set flag serves at most one request and is never upgraded |
| `ConnectionTraces.CodeRunsOnlyThroughItsGates` | crates/core/src/server.rs:2610-2661 | upgrade matching, delegation and application code run for a request only right after all of its own gates allowed it, and see exactly what these inserted, first insert per type winning |
| `ConnectionTraces.RejectionIsFinal` | crates/core/src/server.rs:2612-2649 | after a rejection no gate, upgrade or application code runs for that request |
| `ConnectionTraces.HooksFollowCompleteResponses` | crates/core/src/server.rs:2638-2644 | in a finished run a response hook follows each complete gate-reject, normal or streaming response and nothing else, with the status written |
| `ConnectionTraces.EventsFollowTheirTurn` | crates/core/src/server.rs:2583-2885 | in every run the events of a request are those of its own turn: gates, match, status, mappers; and its response is complete exactly if the turn's writes for that kind of response succeed |
| `ConnectionTraces.HooksMeanWrites` | crates/core/src/server.rs:2865-2881 | a response hook means that the response right before it, with that status, was written in full by the turn's writes |
| `ConnectionTraces.ResponseHooksAreOrdered` | crates/core/src/server.rs:2585-2881 | between two response hooks lies a later request: at most one per request, never out of order |
| `ConnectionTraces.RequestHookFollowsRead` | crates/core/src/server.rs:2583-2588 | every request hook comes right after the read of its request |
| `ConnectionTraces.ResponseStatusIsMapped` | crates/core/src/server.rs:2826-2831 | the status written is the turn's application status passed through the turn's mappers, each applied to what the one before it left |
| `ConnectionTraces.IncompleteResponseIsLast` | crates/core/src/server.rs:2865-2871 | a response not written completely is followed by the close and nothing else, even if it announced keep-alive |
| `ConnectionTraces.StreamedBodiesDecode` | crates/core/src/server.rs:3117-3241 | in every run, the peer's decoder completes on the bytes of a streamed body if and only if the response was complete, and then yields its chunks |
| `LifecycleSteps.StepInv` | crates/core/src/server.rs:2033-2228 | every step of the accept loop, the drain tasks, the connections and the callers keeps the invariant of permits, generations, commands and final drain |
| `LifecycleSteps.RunInv` | crates/core/src/server.rs:2033-2228 | so does every run |
| `LifecycleSafety.HandOver` | crates/core/src/plugin.rs:543-597 | the upgrade hand-over moves the permit from the HTTP task to the session, neither released nor doubled |
| `LifecycleRuns.RunForward` | crates/core/src/server.rs:2033-2228 | along every run flags and cancels stay set, ended connections stay ended, returned calls stay returned |
| `LifecycleTheorems.PermitConservation` | crates/core/src/server.rs:1195-1219 | in every reachable state free permits, the accept in flight, recovered connections, HTTP tasks and sessions of all generations and the final drain add up to max(1, max_connections), so that no more than that many are alive |
| `LifecycleTheorems.RecoveryIsBounded` | crates/core/src/server.rs:2107-2113 | a rebind recovers at most 1024 connections |
| `LifecycleTheorems.NeverReleasedTwice` | crates/core/src/plugin.rs:543-597 | a connection that gave its permit back never owns one again |
| `LifecycleTheorems.CancelCoverage` | crates/core/src/server.rs:1651-1676 | a generation that is over observes its cancel for good, or is retired with a drain task whose first step, ready to run, fires it; a retired one has its flag set |
| `LifecycleCancel.CellFollowsRun` | crates/core/src/server.rs:1651-1676 | the fires and drops a run performs on a generation's cancel cell cancel it if and only if the generation counts as cancelled |
| `LifecycleCancel.ConnectionsSubscribe` | crates/core/src/server.rs:2160-2166 | every connection subscribed to the cell of its own generation |
| `LifecycleCancel.SessionsResolve` | crates/core/src/plugin.rs:172-187 | after any run a handle on a generation's cell, wherever in the run it was subscribed, resolves if and only if the cancel is observed; once the generation is over, now or after the drain task's first step |
| `LifecycleTheorems.RetiredAcceptsNothing` | crates/core/src/server.rs:2092-2158 | a retired generation never gets another connection |
| `LifecycleTheorems.NoUpgradeAfterFlag` | crates/core/src/server.rs:2658-2677 | a connection not past the check when its generation is told to stop is never upgraded |
| `LifecycleTheorems.AbortedOnlyAfterCancel` | crates/core/src/server.rs:1665-1671 | a task is aborted only after its generation was told to stop and its cancel fired |
| `LifecycleTheorems.FinishedMeansDrained` | crates/core/src/server.rs:1659-1675 | a generation whose drain has finished has no HTTP task left, in any reachable state |
| `LifecycleTheorems.RecoveredNeverUpgrades` | crates/core/src/server.rs:2099-2129 | a connection recovered from the old backlog is never upgraded, in any reachable state |
| `LifecycleConnections.RecoveredStartsTold` | crates/core/src/server.rs:2099-2129 | in every run a recovered connection's loop starts under a set flag |
| `LifecycleConnections.RecoveredServesAtMostOne` | crates/core/src/server.rs:2099-2129 | in every run of the server a recovered connection serves at most one request and is never delegated |
| `LifecycleConnections.ToldConnectionDrains` | crates/core/src/server.rs:2599-2677 | in every run a request read after the connection's generation was told to stop is the last, answered without keep-alive and not delegated |
| `LifecycleConnections.LifeExists` | crates/core/src/server.rs:2160-2182 | every connection of every run has a life that reads its generation's flag as the run sets it |
| `LifecycleTheorems.InstallsInChannelOrder` | crates/core/src/server.rs:1544-1577 | listeners are installed in the order their commands were sent, none skipped or repeated |
| `LifecyclePriority.RacePriorities` | crates/core/src/server.rs:1544-1577 | a ready shutdown is the only thing the loop can take, then a queued command; accept comes last |
| `LifecyclePriority.ShutdownBeatsRebindAndAccept` | crates/core/src/server.rs:1544-1577 | once the signal is there when the loop polls, no run installs a queued command or accepts a connection any more |
| `LifecycleTheorems.OkMeansInstalled` | crates/core/src/server.rs:1491-1508 | a returned rebind call returned Ok if and only if its listener was installed, and that never changes |
| `LifecycleTheorems.FailedBindChangesNothing` | crates/core/src/server.rs:1491-1493 | a failed bind changes nothing but its caller's result, and is never installed |
| `LifecycleTheorems.NothingInstalledAfterShutdown` | crates/core/src/server.rs:2075-2091 | once shutdown has won nothing more is installed, waiting and later calls can only end in the error, and the step that gives it to them is enabled |
| `LifecycleTheorems.FinalDrainComplete` | crates/core/src/server.rs:2207-2220 | after a clean return, with permits within 32 bits, no connection or session of any generation is alive, then or later |
| `LifecycleTheorems.ReturnLeavesNoTask` | crates/core/src/server.rs:2187-2228 | whichever way it returns, the current generation has no HTTP task left, its flag set and its cancel fired |
| `LifecycleTheorems.CleanReturnIsCompleteExactlyWhen` | crates/core/src/server.rs:1203-1209 | every clean return leaves nothing alive if and only if max_connections is at most u32::MAX |
| `LifecycleTheorems.SessionOutlivesCleanReturn` | crates/core/src/server.rs:1204-1209 | a run that returns cleanly with a session alive, for any larger max_connections |
| `LifecycleTheorems.SessionOutlivesGrace` | crates/core/src/server.rs:2221-2228 | a run that returns after the grace period with a session alive, for any configuration |
| `LifecycleReturn.ReturnsAlone` | crates/core/src/server.rs:2187-2228 | from every point of a shutdown at most five steps plus one abort per running task, all of them the server's own, lead to the return, unless a join is waiting for a live task |
| `LifecycleReturn.ShutdownReturnsExactlyWhen` | crates/core/src/server.rs:2207-2228 | every shutdown can return by the server's own steps alone if and only if max_connections is at most u32::MAX |
| `LifecycleReturn.JoinWithoutEnd` | crates/core/src/server.rs:2214-2220 | for any larger max_connections, a reachable shutdown whose join waits for a live task with no own step enabled |
| `Backlog.DrainListenerBacklog` | crates/core/src/server.rs:1704-1731 | recovers, in backlog order and without waiting, exactly min(limit, free permits, entries before the first error) connections, each with one permit; all other permits are free again |
| `Cancellation.GenerationCancel.SendTrue` | crates/core/src/plugin.rs:88-102 | sets the value whether or not anybody listens |
| `Cancellation.GenerationCancel.NewHandle` | crates/core/src/plugin.rs:107-118 | a subscription to the cell as it is |
| `Cancellation.GenerationCancel.Poll` | crates/core/src/plugin.rs:172-187 | resolves exactly if the value is set or the sender gone; a disabled handle never |
| `Cancellation.HandlesResolveExactly` | crates/core/src/plugin.rs:172-187 | in every interleaving a handle resolves if and only if the cell was fired or its sender dropped, before or after the subscription |
| `Cancellation.CancelIsPermanent` | crates/core/src/plugin.rs:88-102 | a cancel once observed stays observed |
| `Cookies.PairGrammar` | crates/http/src/cookie.rs:220-235 | a text is read as a pair if and only if it is that pair, well-formed, plain or quoted |
| `Cookies.ParseCookieHeader` | crates/http/src/cookie.rs:299-312 | within the limits all pairs or none; each error exactly in its case |
| `Cookies.JoinedPairsParseBack` | crates/http/src/cookie.rs:299-312 | well-formed pairs joined with "; " are read back as that list exactly when they are within the limits; otherwise the documented error |
| `Cookies.ParsedPairsAreWellFormed` | crates/http/src/cookie.rs:299-312 | whatever is read is well-formed and can be written and read again |
| `SetCookies.SetCookie.constructor` | crates/http/src/cookie.rs:515-531 | a prefix brings its obligations from the start |
| `SetCookies.Create` | crates/http/src/cookie.rs:493-689 | the five constructors: their errors, and a valid cookie otherwise |
| `SetCookies.SetCookie.SetSameSite` | crates/http/src/cookie.rs:739-745 | SameSite=None forces Secure |
| `SetCookies.SetCookie.SetHttpOnly` | crates/http/src/cookie.rs:701-704 | sets the attribute and nothing else |
| `SetCookies.SetCookie.SetSecure` | crates/http/src/cookie.rs:715-718 | sets the attribute and nothing else |
| `SetCookies.SetCookie.SetMaxAge` | crates/http/src/cookie.rs:808-811 | sets the age, any sign, and nothing else |
| `SetCookies.BuildKeepsObligations` | crates/http/src/cookie.rs:701-811 | each builder that succeeds keeps a valid cookie valid, with its name and value |
| `SetCookies.SetCookie.SetPath` | crates/http/src/cookie.rs:779-789 | an invalid path, or one other than "/" for a host-prefixed cookie, is refused and changes nothing |
| `SetCookies.SetCookie.ToHeaderValue` | crates/http/src/cookie.rs:837-858 | the header value is the pair and the set attributes, joined in the fixed order |
| `SetCookies.ChainKeepsObligations` | crates/http/src/cookie.rs:493-811 | every constructor followed by any builders keeps name, value, prefix and SameSite=None obligations |
| `CookieAttributes.ChainSets` | crates/http/src/cookie.rs:493-811 | every attribute of the result is the one the last builder for it set, or else the constructor |
| `CookieAttributes.ChainSucceedsExactly` | crates/http/src/cookie.rs:493-811 | a chain succeeds exactly if its constructor does and every path it sets is allowed |
| `CookieAttributes.HeaderValueIsPrintable` | crates/http/src/cookie.rs:837-858 | the header value holds visible ASCII and spaces only |
| `CookieAttributes.CookieOctetExactly` | crates/http/src/cookie.rs:208-210 | visible ASCII but for quote, comma, semicolon and backslash |
| `CookieAttributes.PathExactly` | crates/http/src/cookie.rs:447-449 | a path begins with a slash and holds printable ASCII but for the semicolon |
| `CookieAttributes.DetectPrefixExactly` | crates/http/src/cookie.rs:430-441 | the two reserved prefixes in any mix of cases, and nothing else |
| `CookieAttributes.HostPrefixSpelled` | crates/http/src/cookie.rs:425 | the prefix is "__Host-" |
| `CookieAttributes.SecurePrefixSpelled` | crates/http/src/cookie.rs:426 | the prefix is "__Secure-" |
| `CookieAttributes.AttributesAreSpelled` | crates/http/src/cookie.rs:837-858 | the attribute names |
| `CookieAttributes.SitesAreSpelled` | crates/http/src/cookie.rs:332-338 | the SameSite values |
| `SetCookies.HeaderSplits` | crates/http/src/cookie.rs:837-858 | split at its semicolons the header value is the pair and then the attributes, each after one space |
| `SetCookies.HeaderValueReadsBack` | crates/http/src/cookie.rs:837-858 | every field of a valid cookie can be read back from its header value |
| `SetCookies.CookiesComeBack` | crates/http/src/cookie.rs:299-312 | the pairs of any valid cookies, sent back together within the limits, are read as they were set |

## Left out

- Sockets and the runtime: what a read, write or accept yields, and which task runs next, are free choices of the environment. Socket options and diagnostic events do not appear.
- How a response head is turned into bytes: the streaming writer gets head bytes as they are, and a plain response is a status with the outcome of its write.
- Plugins other than the upgrade seam, with their own session drains: the application's answer may be anything, and body bytes are written as the producer sent them, without compression.
- What happens inside a WebSocket session: it begins with the hand-over and ends at some time.
- Durations: any wait may end at any moment, so that neither grace periods nor time-outs have a length.
- The content of the listener's backlog in the lifecycle transitions: there any new connection may be recovered; the order, and permits not freed meanwhile by other tasks, are the subject of `Backlog.DrainListenerBacklog`.
- Cancelling a pending `rebind` call: its caller stays until it has an answer.
- Progress: that an enabled step is eventually taken is up to the scheduler; the results say which step is enabled.
- The semaphore's own maximum number of permits, beyond which its constructor panics.
- A read cut off by its time-out: the buffer's state in the middle of it is not described, as the connection closes.
- How much memory a vector keeps when it is shrunk: the allocator decides.
- ChunkedCodec.EncodeDecodeRoundTrip: chunk lengths are at most 64-bit numbers, as slice lengths are.
- SetCookies.Create: covers the `session` and `session_removal` shorthands through their general forms; `max_age` is an unbounded integer.
- Cookies spread over several `Cookie` headers, and everything in `query.rs`, `percent.rs`, `form.rs`, `location.rs` and the CSRF gate: not modelled.
- The reusable output buffer of `send_buffer.rs`: not modelled; a write succeeds as a whole or fails after some of its bytes.
