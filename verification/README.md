# Verified model of grpc-rust

This project models the hard core of grpc-rust, a synchronous gRPC client and server over HTTP/2, and proves
properties of it for every input and every run. `dafny verify dfyconfig.toml` checks all of it.

## What is modelled

| file | what it holds |
|---|---|
| `Common.dfy`, `Utf8.dfy` | bytes, panics as values (`Outcome`), `String::from_utf8` |
| `Codec.dfy` | `parse_frame`, `parse_frame_completely`, `write_frame`, on hosts of either byte order |
| `Framing.dfy` | byte strings as lists of frames with a tail that starts no frame |
| `Method.dfy` | marshallers, descriptors, first-match lookup, `on_message` |
| `Batch.dfy` | the batch meaning of a request: split the whole byte string, map the handler, re-encode |
| `Streams.dfy`, `GrpcStream.dfy` | the values of a server stream, and the class `GrpcStream` proved against them |
| `Drain.dfy` | repeated `get_data_chunk` |
| `Sessions.dfy`, `Connection.dfy` | one pass of the connection as values, and the class `GrpcServerConnection` proved against it |
| `Isolation.dfy`, `Interleaving.dfy`, `History.dfy` | streams of one connection do not interfere; only their own bytes matter; what a live stream is after a whole run |
| `Responses.dfy`, `Flush.dfy` | what the passes of a run send; flushing and why it ends |
| `Client.dfy`, `Awaiting.dfy` | the class `GrpcClient`: request, decoding, `call`; what waiting makes of the frames that come in |
| `EndToEnd.dfy` | a unary call through both ends, also of generated code; a reply that is sent twice; a failing status |
| `SyncSender.dfy` | the lock protocol of `SyncSender` as interleaved steps, why it ends, and the class refined to it |
| `Routing.dfy` | generated paths and descriptors, the generated method table, the protocol's own paths |
| `Debug.dfy` | the `BsDebug` byte printer |

The contracts of the classes supply the premises of the lemmas: `GrpcServerConnection.Run` yields the run of passes,
`GrpcClient.Call` the flushed request and the decoded answer that `EndToEnd.UnaryCall` speaks of. In longer proofs a
`hide` statement keeps definitions out of sight where only their lemmas are needed.

Conventions. A Rust `String` or `Vec<u8>` is the sequence of its bytes. A panic is an `Outcome.Panic` with its reason.
`usize` has 64 bits, so the addition in `parse_frame` cannot overflow; the `as u32` in `write_frame` truncates and is
modelled so. Ghost fields `log` and `received` record completed dispatches and all DATA bytes received.

Assumptions about the HTTP/2 library, which is not part of this model:

- A session maps ids to streams. HEADERS for an unknown id creates a stream, and inserts it only once `set_headers`
  returns; HEADERS for a known id calls `set_headers` again; DATA or END_STREAM for an unknown id is an
  `UnknownStreamId` error; RST_STREAM closes a known stream and is ignored otherwise. On the client, HEADERS for an
  unknown id is that error too. Frames that concern no stream (SETTINGS, PING and so on) touch no stream.
- `close_local` and `close_remote` follow section 5.1 of RFC 7540, `get_closed` removes the streams that are closed,
  and the order in which a session yields its streams is not specified: loops over it pick any stream.
- The prioritizer takes the first stream, in that order, that is not locally closed and has data.
- Ids of client streams start at 1 and grow by 2. The client's chunk size is the server's, 8 KiB.
- A socket accepts some number of frames, a parameter (`budget`), and then fails.
- The futures channel holds a positive number of items, a parameter; a send waits for room and fails once the receiver
  is gone.

## Where the code falls short of its promise

- `write_frame` truncates the length to 32 bits, so a message survives exactly when it is shorter than 4 GiB
  (`Codec.RoundTripIffShort`).
- `resp_buf` is never cleared and nothing closes the server's side of a stream, so each pass over a live stream sends
  its replies again, trailers included (`Responses.ResentByEveryPass`, `EndToEnd.AnsweredTwice`), and streams leave the
  session only by a reset (`Isolation.StreamsLeaveOnlyByReset`). On every run, resets included, a reply goes out once
  exactly when the pass that completes the first message is the last one (`Responses.OnceIffLast`). The client is right
  all the same: it stops at the first END_STREAM.
- `BsDebug` prints backslashes raw. Its output can be read back exactly when the input contains no text `\xHH` with
  lower-case digits (`Debug.RoundTripIff`).
- A generated path starts with `/package.`, also when the package is empty, where the gRPC over HTTP/2 protocol has no
  dot (`Routing.EmptyPackagePath`). It is the protocol's path exactly when the package is not empty
  (`Routing.ProtocolPathIff`), and a client that follows the protocol is served exactly then
  (`Routing.ProtocolClientServedIff`). Paths are unambiguous when service names have no dot and method names no slash
  (`Routing.PathInjective`, `Routing.DottedServiceIsAmbiguous`).
- A client call does not look at `grpc-status`: with any status at all, a body that reads as a message is returned as a
  success (`EndToEnd.FailedStatusIsIgnored`). "A returned value implies status 0" holds of a response exactly when its
  trailers say 0 or its body is not one whole readable frame (`Client.ValueImpliesOkIff`).

## Model

| member | source | states |
|---|---|---|
| `Codec.LengthIsBigEndian` | src/grpc.rs:15-19 | on a host of either byte order, `to_be` with the raw copy writes the base-256 big-endian digits of the length and reads them back |
| `Codec.WireImage` | src/grpc.rs:35-42 | the bytes written are the same whatever the host |
| `Codec.WriteFrame` | src/grpc.rs:35-42 | the vector grows by exactly one encoded frame: flag 0, big-endian length, payload |
| `Codec.ParseFrame` | src/grpc.rs:5-26 | parsing does not depend on the host's byte order |
| `Codec.ParseIffEncodedPrefix` | src/grpc.rs:5-26 | a frame with payload m is returned exactly when m is shorter than 4 GiB and its encoding is a prefix of the input; the count is 5 plus the length of m |
| `Codec.RefusedIffFlagged` | src/grpc.rs:10-14 | the two panics happen exactly when a whole header is there and its flag is 1, or more than 1 |
| `Codec.IncompleteIffCompletable` | src/grpc.rs:7-23 | `None` exactly when there are fewer than 5 bytes or further bytes can complete a frame |
| `Codec.ParseStable` | src/grpc.rs:5-26 | a success or a refusal is unchanged by bytes that arrive later |
| `Codec.CodecBijection` | src/grpc.rs:28-42 | `parse_frame_completely` returns m exactly on the bytes `write_frame` makes of m, for any pair of hosts |
| `Codec.CompletelyOtherwise` | src/grpc.rs:28-33 | `parse_frame_completely` panics exactly on a refused flag with a whole header, and gives `None` exactly on other inputs that are no encoding |
| `Codec.KnownFrames` | src/grpc.rs:49-59 | the inputs of the unit test give its outputs |
| `Codec.RoundTripIffShort` | src/grpc.rs:37-41 | a message round-trips exactly when it is shorter than 4 GiB; a longer one parses to its truncation |
| `Framing.SplitConserves` | src/grpc.rs:5-26 | cutting frames off the front loses no byte and stops only where no frame starts |
| `Framing.SplitEncoded` | src/grpc.rs:35-42 | the messages written are the messages read, with the tail untouched |
| `Framing.UniqueDecodability` | src/grpc.rs:5-42 | two encoded message lists with tails that start no frame give the same bytes only if lists and tails are equal |
| `Framing.SplitAppend` | src/grpc.rs:5-26 | a longer input splits into the frames already there and those of the leftover with the new bytes |
| `Method.FirstMatch` | src/method.rs:91-96 | lookup gives the first method of that name, and panics exactly when there is none |
| `Method.HandlesIff` | src/method.rs:56-60 | on any bytes, an answer exactly when reading, handling and writing all succeed, and otherwise the panic of the first of the three that panics |
| `Method.DispatchedCall` | src/method.rs:56-60 | under the marshaller law, an encoded request is answered by the encoding of the handler's answer, which reads back |
| `Method.MarshallerBytesLawful` | src/marshall.rs:18-28 | the byte marshaller copies in both directions, so it keeps the round-trip law and never panics |
| `Method.MarshallerStringLawful` | src/marshall.rs:6-16 | the string marshaller keeps the law, and reading panics exactly on bytes that encode no list of scalar values |
| `Batch.BatchStep` | src/server.rs:98-109 | one loop iteration is one step of the batch meaning, panics included |
| `Batch.BatchAppend` | src/server.rs:97-131 | running on a longer input continues the shorter run from its leftover, unless that run panicked |
| `Batch.BatchConserves` | src/server.rs:97-110 | dispatched messages re-encoded, then the leftover, are the input; every dispatch is one the service makes; a normal end leaves no whole frame |
| `Batch.BatchPanicsIff` | src/server.rs:99-105 | processing panics exactly on a refused flag at the front of the leftover, or on a frame there that the service panics on |
| `Batch.BatchBounds` | src/server.rs:97-110 | at most one dispatch per 5 bytes; the reply buffer grows by 5 per dispatch plus the replies |
| `GrpcStreams.GrpcStream.WithId` | src/server.rs:82-95 | a new stream is open and empty |
| `GrpcStreams.GrpcStream.ProcessBuf` | src/server.rs:97-110 | the in-place loop terminates and leaves exactly the batch meaning of the request buffer, in both outcomes |
| `GrpcStreams.GrpcStream.SetHeaders` | src/server.rs:114-125 | path, stored headers and outcome are those of reading the headers in order |
| `GrpcStreams.GrpcStream.NewDataChunk` | src/server.rs:127-131 | the whole new state after one chunk, in both outcomes |
| `GrpcStreams.GrpcStream.SetState` | src/server.rs:133-137 | only the state changes |
| `GrpcStreams.GrpcStream.GetDataChunk` | src/server.rs:139-165 | the cursor, the state, the result and the bytes in the buffer after one read |
| `Streams.LastPathWins` | src/server.rs:114-119 | headers are read up to the first `:path` that is not UTF-8, which panics; the last `:path` read wins, also when it panics |
| `Streams.HeadersStored` | src/server.rs:114-125 | the whole list is stored unless the call panics, and nothing but list and path changes |
| `Streams.SidesCloseApart` | src/server.rs:133-137 | a state is the pair of its two sides; closing one leaves the other |
| `Utf8.ValidIffText` | src/server.rs:117 | the strings accepted are exactly the UTF-8 encodings of lists of Unicode scalar values |
| `Streams.DataConserves` | src/server.rs:127-131 | bytes received are the encoded dispatched messages and the request buffer, and the response buffer is the encoded replies, even after a panic |
| `Streams.DataCompose` | src/server.rs:127-131 | two chunks in a row are their concatenation |
| `Streams.ChunkingIndependence` | src/server.rs:97-131 | any split into chunks, empty ones included, gives the dispatches, replies and outcome of one call, and the same leftover unless it panics |
| `Drain.ReadsNeededIsCeiling` | src/server.rs:139-165 | the number of reads is the ceiling of size over buffer, and at least one |
| `Drain.DrainResults` | src/server.rs:147-157 | full chunks, then one `Last`, then only `Closed` |
| `Drain.ReadResults` | src/server.rs:139-165 | for every stream and buffer: an error exactly when the sending side is closed, `Unavailable` exactly when it is open without data, else the next bytes that fit and `Last` exactly when they are the last |
| `Drain.DrainDelivers` | src/server.rs:139-165 | reads deliver the unread bytes in order, and close the sending side after exactly that many reads |
| `Drain.DrainsIff` | src/server.rs:150-162 | a stream can be drained exactly when the buffer has room or nothing is unread |
| `Isolation.StreamsAreIsolated` | src/server.rs:286-303 | after any interleaving a stream is as if the connection had carried only its own frames |
| `Isolation.CleanIffEachStreamClean` | src/server.rs:286-303 | a run fails or panics exactly when some stream would do so alone |
| `Isolation.StreamsLeaveOnlyByReset` | src/server.rs:280-284 | a stream is in the session exactly when the last frame addressed to it was not a reset |
| `Isolation.RunKeepsInvariant` | src/server.rs:286-303 | byte conservation, no waiting frame and nothing to flush hold for every stream in every reachable state |
| `Isolation.FrameOutcome` | src/server.rs:286-290 | which frames fail or panic and why, which open a stream, and that no other stream changes |
| `Isolation.ReapedAreClosed` | src/server.rs:280-284 | a stream is reaped exactly when both its sides have ended |
| `History.LiveStreamRemembers` | src/server.rs:286-303 | after every clean run a stream is half closed exactly when a frame of its own since its last opening carried END_STREAM; its headers, path and bytes are those of its frames since then |
| `History.ServerReadsNothing` | src/server.rs:139-146 | in every reachable state every read of a server stream is `Unavailable` and changes nothing |
| `Interleaving.StreamIsItsBytes` | src/server.rs:97-131 | after headers and DATA frames amid other traffic, a stream is the batch meaning of its concatenated bytes |
| `Interleaving.PanicsDependOnBytes` | src/server.rs:97-131 | whether a stream panics depends on its headers and concatenated bytes, not on the cut |
| `Interleaving.CutsAndTrafficDoNotMatter` | src/server.rs:286-303 | two connections with the same bytes for a stream, cut and interleaved differently, agree on it |
| `Responses.TriplesGrammar` | src/server.rs:242-262 | what is sent reads back as HEADERS, DATA, HEADERS triples, and only that does |
| `Responses.EndStreamPositions` | src/server.rs:243-260 | END_STREAM is on every third frame and on no other |
| `Responses.SentAreAnswers` | src/server.rs:242-262 | each response goes out as status 200 and content type application/grpc, its payload, and grpc-status 0 |
| `Responses.OwnTriples` | src/server.rs:232-262 | per pass a stream is sent one triple with its whole response buffer, or nothing when that is empty |
| `Responses.LogsGrow` | src/server.rs:292-303 | dispatches and response buffer of a live stream only grow |
| `Responses.PrefixChain` | src/server.rs:232-262 | the payloads sent for a live stream extend one another, and each splits without residue into the replies so far |
| `Responses.ResentByEveryPass` | src/server.rs:232-240 | a stream that stays in the session is answered by every pass from its first completed message on |
| `Responses.OnceIffLast` | src/server.rs:292-303 | on every run, resets included, a stream is answered exactly once if and only if the pass that completes its first message is the last |
| `Flush.FlushDelivers` | src/server.rs:264-278 | a finished flush has sent each stream's unread bytes in order, END_STREAM on the last frame only, and touched no other stream |
| `Flush.WorkDecreases` | src/server.rs:274-278 | each chunk uses up unread bytes or closes a stream, so flushing ends |
| `Connection.GrpcServerConnection.HandleNextFrame` | src/server.rs:286-290 | the whole new session and status after one frame |
| `Connection.GrpcServerConnection.HandleRequests` | src/server.rs:232-240 | exactly the streams with replies, each once, with their buffers, in any order |
| `Connection.GrpcServerConnection.PrepareResponses` | src/server.rs:242-262 | all triples are sent, or those frames the socket takes before it fails |
| `Connection.GrpcServerConnection.GetNextChunk` | src/server.rs:264-272 | a chunk of some stream that has one, or none when no stream has |
| `Connection.GrpcServerConnection.SendNextData` | src/server.rs:264-272 | at most one chunk goes out, and nothing only when no stream has data |
| `Connection.GrpcServerConnection.FlushStreams` | src/server.rs:274-278 | terminates; what went out are reads of the streams in their order, and nothing is left unless the socket failed |
| `Connection.GrpcServerConnection.ReapStreams` | src/server.rs:280-284 | exactly the closed streams are gone |
| `Connection.GrpcServerConnection.HandleNext` | src/server.rs:292-303 | one turn: the session, what was sent and the status, in success and in every failure; streams are reaped only in success |
| `Connection.GrpcServerConnection.Run` | src/server.rs:305-316 | a run of good passes over a prefix of the input, everything sent by it, why it stopped, and the session it stopped with |
| `Client.RequestIsComplete` | src/client.rs:59-97 | for the new stream, its headers go out and then DATA frames in blocks of 8 KiB that concatenate to the body, END_STREAM on the last of all these frames and on no other; without a body the headers are all |
| `Client.RequestHeadersRead` | src/client.rs:65-74 | each of the four pseudo-headers has its own value, followed only by what the caller adds |
| `Client.CallHeadersRead` | src/client.rs:130-135 | `call` sends POST, the method's path, the client's host and http, each once and nothing else |
| `Client.GrpcClient.Request` | src/client.rs:82-97 | terminates; a new odd id, headers, then reads of all the client's streams until none is left, or failure exactly when the socket fails first |
| `Client.GrpcClient.SendNextData` | src/client.rs:93-94 | at most one chunk goes out, and nothing only when no stream has data |
| `Client.DecodesIff` | src/client.rs:137-143 | the call returns v exactly when the closed stream's body is one whole frame whose message reads as v |
| `Client.DecodePanicsIff` | src/client.rs:137-143 | when a call panics, and with which reason |
| `Client.ValueImpliesOkIff` | src/client.rs:137-143 | a returned value implies `grpc-status: 0` exactly when the trailers say so or the body is not one whole readable frame |
| `Client.GrpcClient.HandleNextFrame` | src/client.rs:99-103 | the client's streams after one frame |
| `Client.GrpcClient.GetResponse` | src/client.rs:105-122 | frames are handled until the stream is closed on both sides |
| `Awaiting.AwaitResponse` | src/client.rs:105-122 | headers, data in any cut and closing trailers give a response with the concatenated body |
| `Awaiting.AwaitOutcome` | src/client.rs:105-122 | the wait ends with the first frame that ends or resets the stream, with the last headers and all the data by then; else with the first frame of an unknown stream, or with the input |
| `Awaiting.WaitsUnlessClosed` | src/client.rs:112-118 | a stream is waited for unless it is closed on both sides already |
| `Awaiting.ClientFrameOutcome` | src/client.rs:99-103 | headers or data for an unknown stream are the only errors; no frame adds, removes or changes another stream |
| `Client.GrpcClient.Call` | src/client.rs:124-144 | what is sent, and the result or panic, from the frames that come in |
| `EndToEnd.ServerAnswers` | src/server.rs:97-131 | one whole message, cut in any way and amid other streams, is answered by one repeated triple with the encoded reply |
| `EndToEnd.AnswersAreGrpc` | src/server.rs:242-262 | every repetition of that answer has status 200 and the gRPC content type, the encoded reply, and a final grpc-status 0 |
| `EndToEnd.FailedStatusIsIgnored` | src/client.rs:137-143 | with any `grpc-status` but 0, and any message the marshaller reads, there is a response for which the call returns that message |
| `EndToEnd.UnaryCall` | src/client.rs:124-144 | the call returns the handler's answer, however request and response are cut and whatever else the connections carry |
| `EndToEnd.UnaryCallHappens` | src/client.rs:130-137 | for every registered method and request such a call takes place: all premises of `UnaryCall` can be met |
| `EndToEnd.GeneratedCall` | src/codegen.rs:51-59 | a generated stub calling the generated server returns the answer of the trait method of its name |
| `EndToEnd.AnsweredTwice` | src/server.rs:232-262 | for every method and message there is a run that sends the reply twice |
| `SyncSenders.StepKeepsInvariant` | src/channel_sync_sender.rs:19-24 | every step of every thread keeps mutual exclusion, the token, the items, program order and lock order |
| `SyncSenders.ReachableInvariant` | src/channel_sync_sender.rs:9-25 | so they hold in every state any interleaving reaches |
| `SyncSenders.TokenNeverMissing` | src/channel_sync_sender.rs:20-23 | `take().unwrap()` never fails, and only one thread has the sender |
| `SyncSenders.Linearizable` | src/channel_sync_sender.rs:18-25 | accepted items are received or queued, each thread's in program order covering every returned call, in the order of the lock |
| `SyncSenders.PoisonIsForever` | src/channel_sync_sender.rs:20-22 | after a failed send nothing more is accepted and every later call panics at the lock |
| `SyncSenders.SomeStepIsPossible` | src/channel_sync_sender.rs:19-24 | no deadlock: while a call is outstanding, a thread or the receiver can move |
| `SyncSenders.InterleavingsAreBounded` | src/channel_sync_sender.rs:18-25 | with n calls in all, every interleaving has at most 6n + 1 steps: five of its thread and one of the receiver per call, and the receiver's end |
| `SyncSenders.RestIffDone` | src/channel_sync_sender.rs:18-25 | nothing can move any more exactly when every call has been made or its thread panicked, and the receiver has every item or is gone; if it is there, it has every program whole |
| `SyncSenders.SoloCall` | src/channel_sync_sender.rs:19-24 | an uninterrupted call is one of the interleavings, ending in the state `Send` is proved to leave |
| `SyncSenders.SyncSender.constructor` | src/channel_sync_sender.rs:9-12 | a new sender is in its slot |
| `SyncSenders.Channel.SendAndWait` | src/channel_sync_sender.rs:22 | a send into a full channel waits for one item to be taken; it accepts the item, or fails when the receiver is gone |
| `SyncSenders.SyncSender.Send` | src/channel_sync_sender.rs:19-24 | an uninterrupted call returns exactly when the item is accepted, else panics with the sender lost and the mutex poisoned; nothing else is lost or repeated |
| `Routing.BuildServer` | src/codegen.rs:228-235 | one registration per method, in order: the descriptor the stub uses, and the trait method of its name |
| `Routing.PathsEqualIff` | src/codegen.rs:75-83 | two slash-free method names share a path exactly when names and dotted service names agree |
| `Routing.PathInjective` | src/codegen.rs:77 | a path determines package, service and method |
| `Routing.DottedServiceIsAmbiguous` | src/codegen.rs:96 | with a dot in the service name two services share their paths |
| `Routing.RoutingIsFaithful` | src/codegen.rs:228-235 | of all generated paths exactly the service's own are found, each reading, handling and answering through the first method of its name |
| `Routing.StubFindsItsMethod` | src/codegen.rs:75-83 | for a legal service every stub's path is UTF-8 and finds, in the generated server, the stub's own descriptor and trait method |
| `Routing.ProtocolPathIff` | src/codegen.rs:96 | a generated path is the protocol's exactly when the package is not empty; else it is one dot longer |
| `Routing.EmptyPackagePath` | src/codegen.rs:96 | the path of a method without a package, beside the protocol's |
| `Routing.GreeterPath` | grpc-examples/src/helloworld_grpc.rs:48 | the path in the checked-in generated code |
| `Routing.ProtocolClientServedIff` | src/codegen.rs:96 | a call by the protocol's path finds its method exactly when the package is not empty |
| `Debug.Fmt` | src/server.rs:42-57 | the printed text is the escaped bytes between `b"` and `"` |
| `Debug.PrintedByte` | src/server.rs:46-53 | a byte from space to tilde stands for itself, any other is `\x` and two lower-case hexadecimal digits |
| `Debug.OnlyPrintable` | src/server.rs:46-53 | only printable ASCII is printed |
| `Debug.RoundTripIff` | src/server.rs:46-53 | unescaping recovers the input exactly when it contains no text of the form `\xHH` |

## Left out

- `stream_id` as an `Option`, `body` and the `println!` tracing of `GrpcStream`: never read by the logic.
- TCP sockets, the connection preface, listening and thread spawning: input and output.
- HPACK, the HTTP/2 frame layout, flow-control windows and frame size limits: the HTTP/2 library.
- `GrpcClientAsync` and its event loop: a stub without behaviour.
- The protobuf encoding in `MarshallerProtobuf`: a library call; the round-trip law stands for it.
- Emission of Rust text through `CodeWriter`: only the path naming and the method table are kept.
- `GrpcServerConnection::new` beyond its initial values.
- The message types of generated code are one type parameter `M`, with a marshaller for each type name.
- Handlers with state of their own: a handler is a function of its request.
- `SyncSenders.SyncSender.Send`: a call that other threads interleave with, and a send that would wait for ever on a
  silent receiver; the receiver either takes an item or goes away (parameter `goesAway`). Interleaved calls are those of
  the step machine, which `SyncSenders.SoloCall` ties to this method.
- `SyncSenders.Channel.SendAndWait`: a receiver that takes further items while a send waits; the step machine has it
  (`Receive`), the method lets it take the one item that makes room.
- `Client.GrpcClient.GetResponse`: waiting for ever on a silent peer; the incoming frames are a finite sequence, and its
  end is an error.
