# qp2p, modelled and proved in Dafny

qp2p puts a small message protocol on top of QUIC streams. This project models the parts of it that
carry guarantees and proves what they guarantee:

- **Framing.** A message is a nine-byte header and a body. The reader makes one short read, tops the
  header up and then reads the body, and treats a lost connection differently before and after the
  first byte of a frame. (`Types`, `Errors`, `Wire`, `WireProofs`, `ReferenceCodec`, `Streams`)
- **Listening.** Each connection has a uni-stream listener, and a bi-stream listener with one handler
  per stream. Both feed one bounded channel to the application, and both live as long as some handle
  to the connection does. (`Listening`, `Channel`, `UniListener`, `BiHandler`, `RequestResponse`,
  `Listeners`, `ListenerProofs`, `Origins`, `ListenerTheorems`, `ListenerProgress`)
- **Sending.** A send half shared under a mutex, and `send_with` with its retries, followed all the way
  to the application at the other end. (`SharedSend`, `Sending`, `Delivery`)
- **Bootstrapping.** A peer asks a contact for its visible address, resolves its public address, starts
  listening and asks the contact to dial back, while the contact does the same for any number of other
  peers and other connections come in. (`Endpoints`, `Bootstrap`, `BootstrapSafety`,
  `BootstrapProgress`, `BootstrapCapacity`)
- **Port-mapping leases** and their renewal. (`Igd`)

## How the model is put together

A receive stream is what section 2.2 of RFC 9000 promises, an ordered sequence of bytes, possibly
interrupted by faults; the end of the sequence is the FIN. `Wire.Parse` is one call of
`read_from_stream` on such a sequence. `Streams.ReadFromStream` is the same call as the library makes
it, filling buffers in place from chunks of any size, and is proved to compute `Parse` whatever the
chunks. A fault is reported once; after it the stream goes on with whatever the sequence holds, which
over-approximates the transport.

The serialiser of service messages is a parameter (`Wire.Codec`) with a contract: decoding undoes
encoding, and an encoded message has at least one byte and fits in a frame. `ReferenceCodec` meets it.

Sequential code keeps its own form: loops, buffers and objects are methods, arrays and classes, proved
against functions of the stream contents. Whatever the environment decides (how a dial-back ends, when
the application drops its half of the channel, how much a send stream takes) is a parameter. Code that
runs concurrently is a state machine whose steps are the points where another party may run
(`Listeners`, `SharedSend`, `Bootstrap`); its theorems are about every run.

`Bootstrap` contains `Listeners`: every connection that the joining peer's loop accepts is a
`Listeners.Conn` with one handle, its receiving half and both listeners, and its steps are those of
`Listeners`. The echo response that a contact waits for is there exactly when the handler of that
connection has served the request, so that a queued connection nobody has looked at gets verified is a
theorem of `Listeners` (`ListenerProgress.ServiceMoves`, on which `BootstrapProgress.EchoMoves` rests), not
an assumption. The streams of a connection are given when it is accepted; that of a dial-back can be
accepted only once the contact has sent its request.

## Where comments and code differ

The model follows the code.

- An empty user message is written with success and refused by every reader
  (`src/wire_msg.rs:77-78`). Round trips are stated for all messages, with the error in its place;
  `WireProofs.SequenceIntactIffNoEmpty` gives the exact condition.
- `src/connection.rs:516-517` leaves it to the uni-stream listener to report a failure to accept
  bi-streams. Items that handlers had already put in the channel are delivered, but an item that a
  handler had decoded and not yet put there is lost (`ListenerTheorems.AcceptFailureDropsMessage`);
  `ListenerTheorems.LostIffHeldAtFailure` gives the exact condition.
- `src/endpoint.rs:104-105` says that a lease is renewed every `upnp_lease_duration`. A lease has whole
  seconds, so with a fraction of a second in the interval the mapping lapses before every renewal
  (`Igd.UnbrokenIffWholeSeconds`).
- `src/config.rs:113-115` says that port forwarding is skipped when an external port is configured;
  `src/endpoint.rs:152` looks at `forward_port` alone, so a mapping that fails is an error whatever the
  external port (`Endpoints.Endpoint.NewPeer`).
- `src/endpoint.rs:169` bounds the channel of incoming connections, and `new_peer` returns only after
  verification, so nobody empties the channel meanwhile: with more than 10,000 connections from others a
  reachable peer may wait in vain. The loop at `src/endpoint.rs:500-502` also waits for one handshake at a
  time, so a single stranger that opens a connection and goes silent holds up the dial-back behind it
  until a timeout (`BootstrapCapacity.OneSilentStrangerStalls`). The exact condition for neither to happen
  is `BootstrapCapacity.JoinsIffNobodyKeepsTheLoop`.
- `src/connection.rs:211-213` says that messages sent over a stream arrive in order. A writer that is
  dropped inside a frame, as the handlers are at `src/connection.rs:508-530` when the handles are gone,
  leaves part of it on a send half that others still hold; the next frame may then be read as the rest
  (`SharedSend.TornFrameSwallowsNext`). `SharedSend.FramesNeverInterleave` gives the exact condition.

## Model

| member | source | states |
|---|---|---|
| Errors.ReadErrorsStayDistinct | src/error.rs:402-426 | no two read failures convert to the same error; a converted error is a connection loss exactly when the cause was one, and benign exactly for an idle timeout, a local close or an application close with code 0 |
| Errors.WriteErrorsStayDistinct | src/error.rs:361-372 | no two write failures convert to the same error; connection loss (no retry) and a stopped stream (forgiven when finishing) are recognised exactly |
| Errors.ConnectionErrorTargets | src/error.rs:182-200 | what each failure of a connection is converted to |
| Errors.StreamErrorTargets | src/error.rs:361-426 | what each failure to read or write is converted to |
| Wire.HeaderLayout | src/wire_msg.rs:174-188 | the nine bytes are version and length in big-endian order, the flag and two zeros |
| Wire.HeaderRoundTrip | src/wire_msg.rs:174-200 | decoding an encoded header gives back version, length and flag, and the whole header exactly when its reserved bytes are zero |
| Wire.HeaderReencode | src/wire_msg.rs:190-200 | re-encoding a decoded header restores any nine bytes exactly when both reserved bytes are zero |
| ReferenceCodec.MeetsContract | src/wire_msg.rs:98-101 | the contract asked of the serialiser can be met |
| ReferenceCodec.ServiceFrameMayHoldUserMessage | src/wire_msg.rs:79-82 | a frame with the service flag may decode to a user message |
| WireProofs.ReadExactMeaning | src/wire_msg.rs:75 | an exact read gets its bytes when so many come before the first fault or FIN, and otherwise reports that fault or FIN |
| WireProofs.ReadExactSplit | src/wire_msg.rs:56-60 | a read followed by a top-up is one exact read, in results, errors and bytes consumed |
| WireProofs.EndOnlyAtFrameBoundary | src/wire_msg.rs:43-55 | a read reports the end of the stream if and only if the FIN or a benign loss stands in the place of the first byte of a frame |
| WireProofs.ParseShort | src/wire_msg.rs:56-75 | fewer bytes than the frame claims, whatever they are, give the error of what ended them, and never a message |
| WireProofs.ParseComplete | src/wire_msg.rs:63-89 | enough bytes give the decoded body, and exactly nine plus the claimed length are consumed |
| WireProofs.CompleteFrameMeaning | src/wire_msg.rs:63-89 | byte for byte, what a complete frame is read as in front of anything: an empty body, an unknown flag byte and an undecodable body are each their own error, flag 0 is a user message, flag 1 what the serialiser decodes |
| WireProofs.MalformedMeaning | src/wire_msg.rs:77-89 | a complete frame is refused if and only if its body is empty, its flag byte exceeds 1, or the flag is 1 and the body does not decode |
| WireProofs.FrameBytes | src/wire_msg.rs:93-188 | byte for byte, the frame of a message: version 1, big-endian length, flag 0 for a user message and 1 otherwise, two zeros, the body; refused exactly above 4,294,967,295 bytes |
| WireProofs.TruncatedFrameIsError | src/wire_msg.rs:43-75 | a written frame cut anywhere inside and ended in any way is read as the error of that ending |
| WireProofs.BenignLossIsMidFrame | src/wire_msg.rs:43-61 | a benign loss is an error only with at least one byte of an incomplete frame read |
| WireProofs.FramesReadOneByOne | src/wire_msg.rs:63-89 | a run of complete frames, malformed ones included, is read frame by frame, each giving its own result |
| WireProofs.FrameRoundTrip | src/wire_msg.rs:38-113 | one written frame in front of anything is read back, consuming just its bytes |
| WireProofs.SequenceRoundTrip | src/wire_msg.rs:38-113 | every list of writable messages is read back in order, with an error in the place of each empty user message |
| WireProofs.SequenceIntactIffNoEmpty | src/wire_msg.rs:77-80 | a finished stream gives back exactly the messages and then the end if and only if none of them is an empty user message |
| WireProofs.FramePrefixFree | src/wire_msg.rs:93-113 | no frame is a prefix of another and no two messages share one |
| WireProofs.FramesUniquelyDecodable | src/wire_msg.rs:93-113 | the bytes of one message list are a prefix of those of another exactly when the lists are prefixes |
| Streams.RecvStream.ReadExactly | src/wire_msg.rs:75 | filling a buffer from chunks of any size agrees with the exact read of the bytes they carry |
| Streams.ReadHeader | src/wire_msg.rs:41-61 | short read and top-up of the header buffer: a quiet end, an error or all nine bytes, as the bytes dictate |
| Streams.ReadFromStream | src/wire_msg.rs:38-90 | the in-place reader returns the result of the one-shot parser and leaves the stream where the parser does, for every chunking |
| Streams.ReadMessages | src/wire_msg.rs:38-90 | frames cut into any chunks are read back as the messages they carry, and then the end |
| Streams.WriteToStream | src/wire_msg.rs:93-113 | the stream gets the frame or as much of it as it takes, success exactly when all of it; nothing at all for a message that is too long |
| Listening.PullIsHead | src/connection.rs:358-374 | pulling one item at a time from the flattened streams gives the streams' items in accept order |
| Listening.FlatItemsConcat | src/connection.rs:358-374 | streams are taken one after the other: what one does, an error included, leaves the items of the others alone |
| Listening.CutAtLossShape | src/connection.rs:398-412 | the listener's items are a prefix, have a connection loss at most at the end, and are cut nowhere else |
| UniListener.UniMessages.Next | src/connection.rs:358-374 | the object that unfolds and flattens streams in place yields what `Listening.Pull` does |
| UniListener.ListenOnUniStreams | src/connection.rs:378-413 | the application gets the flattened items up to the first connection loss, and of these the first so many that its own presence and the handles allow |
| BiHandler.HandleEndpointEcho | src/connection.rs:534-542 | the stream gets the frame of an echo response with the peer's address, or as much of it as it takes; success exactly when all of it, else the write failure |
| BiHandler.DialBack | src/connection.rs:551-586 | connect, open, write and read in turn, under the time limit: verified exactly when every step succeeds, the whole request was taken and the first message back is an echo response |
| BiHandler.HandleEndpointVerification | src/connection.rs:544-596 | the stream gets the frame of a verification response that is positive exactly when the dial-back was confirmed; success exactly when all of it was taken, else the write failure |
| BiHandler.HandleRead | src/connection.rs:440-497 | one round of the handler takes exactly its own item or answer off what is still to come, and stops exactly at the end, at a loss or when refused |
| BiHandler.HandleBiStream | src/connection.rs:435-501 | the application gets the errors and user messages in order, the peer the frames of one answer per request in order, as far as either takes them |
| BiHandler.ProcessedMeaning | src/connection.rs:448-466 | a handler stops with the read whose item the application refuses, and with no other |
| RequestResponse.RequestsAnsweredInOrder | src/connection.rs:439-498 | for every message list written to a bi-stream, user messages arrive in order and the writer reads back exactly one answer per request, in order, each verification answer telling its own dial-back |
| ListenerProofs.StepKeepsInv | src/connection.rs:282-532 | every step of handles, channel, listeners and handlers keeps reference counts, conservation and refinement |
| ListenerProofs.RunsKeepInv | src/connection.rs:282-532 | every reachable state of every run satisfies that invariant |
| ListenerTheorems.ItemsAreConserved | src/connection.rs:398-413 | while the application listens, everything decoded is delivered, queued (at most 10,000), held by its task, or given up, once and in order; the uni listener gives up nothing, a handler at most one item |
| ListenerTheorems.LostIffHeldAtFailure | src/connection.rs:515-522 | a handler gave something up if and only if it held an item at the step at which accepting bi-streams failed, and it gave up exactly that item; without such a step nothing |
| ListenerTheorems.ChannelTakesUpToItsBound | src/connection.rs:398-412 | the uni listener can pass an item on exactly when the application is there and fewer than 10,000 items wait, and gives it up exactly when the application is gone |
| ListenerTheorems.DeliveryFollowsStreams | src/connection.rs:358-413 | what was delivered is a prefix of the flattened uni-streams and of each bi-stream's items, with a connection loss at most once per listener or handler and last |
| ListenerTheorems.NothingMoreMeansEverythingDelivered | src/connection.rs:302-315 | `next` yields nothing more only when both listeners stopped and the queue drained, and then every item of the uni-streams up to a loss, and every item of every bi-stream unless accepting failed, was delivered |
| ListenerProgress.SomethingMoves | src/connection.rs:378-531 | while the application keeps its receiving half, it can take an item, a listener or handler can move, or there is nothing more |
| ListenerProgress.ReceivingGetsEverything | src/connection.rs:302-315 | an application that keeps receiving gets everything: the run is bounded by its input and can come to rest only with every item of every stream delivered |
| ListenerTheorems.StoppedOnlyWithoutHandles | src/connection.rs:30-68 | the alive marker counts clones plus the receiving half; a listener stops for lack of handles only at zero |
| ListenerTheorems.AnswersFollowRequests | src/connection.rs:469-489 | in every interleaving the requests answered on a bi-stream are the first of those it carries, in order, all of them once its handler finished, each with the right reply |
| ListenerProgress.RunsComeToRest | src/connection.rs:378-531 | every run of a connection is bounded by its input, whatever the interleaving |
| ListenerProgress.ServiceMoves | src/connection.rs:432-489 | as long as its receiving half exists, a connection has answered all requests of such a stream or can accept it or read on by itself, with less left to do |
| ListenerProgress.UnseenConnectionIsServed | src/connection.rs:432-489 | a connection that only sits in a queue is served: with its receiving half kept, a run can come to rest only when every request of a stream of requests was answered, from accepting the stream on, in order and with the right replies |
| ListenerTheorems.BenignLossSurfacesMidFrame | src/connection.rs:598-625 | a benign loss that reaches the application was met on the very stream the item comes from, by the read it made after all frames before, inside an incomplete frame |
| ListenerTheorems.MalformedFrameIsIsolated | src/connection.rs:439-457 | on a bi-stream a frame with an empty body, an unknown flag byte or an undecodable body adds exactly one error, saying which, and changes nothing before or after |
| Origins.OriginMeaning | src/connection.rs:358-374 | every item of the uni listener is an item of the stream it is traced to, or the failure to accept |
| Origins.ReachedMeansClear | src/connection.rs:398-412 | the listener gets to an item only if nothing accepted before its stream failed or ended with a connection loss |
| Origins.ClearMeansReached | src/connection.rs:398-412 | and then it gets to every item of the stream |
| Origins.StreamErrorOnlyLast | src/connection.rs:363-371 | on a uni-stream the first error, of any kind, is the last item |
| ListenerTheorems.UniStreamOfMessages | src/connection.rs:363-371 | for every list of messages written on a uni-stream: its user messages up to the first empty one or other message, which is the error that ends it |
| ListenerTheorems.AcceptFailureEndsListening | src/connection.rs:607-624 | after a benign failure to accept uni-streams the application gets just what the streams before held, after any other also that failure, once and last |
| ListenerTheorems.AcceptFailureDropsMessage | src/connection.rs:515-522 | for every non-empty payload and non-benign failure there is a run in which a decoded message is lost though the application still listens |
| SharedSend.RunsKeepInv | src/connection.rs:437-489 | in every interleaving, with writers dropped at any point, the bytes written and in flight are the frames of the messages started, each as far as it went out |
| SharedSend.FramesNeverInterleave | src/connection.rs:437-489 | between writes the stream holds the whole frames of the messages kept, in lock order, if and only if no writer was dropped after the first and before the last byte of a frame; then the peer reads exactly those messages; at any moment, after a failed write too, the bytes are a prefix of such pieces |
| SharedSend.IntactUpToTheTear | src/connection.rs:508-530 | the messages before a torn frame are read as they were written, whatever follows |
| SharedSend.TornFrameSwallowsNext | src/connection.rs:214-216 | for every non-empty message whose frame fits in a message there is a run in which a frame torn before its body makes the peer read the whole next frame as one message nobody sent |
| Sending.SendUni | src/connection.rs:160-175 | one attempt: its result and the bytes on its stream, for every behaviour of the transport |
| Sending.AttemptMeaning | src/connection.rs:160-175 | what that result is: a fully written attempt succeeds if and only if the stream finishes or was stopped by the peer; every other outcome has its own error and leaves just the bytes taken |
| Sending.SendWith | src/connection.rs:100-128 | the call makes the first so many attempts allowed: each but the last failed without losing the connection, the last is the last allowed, succeeded or lost the connection; result of the last, streams of all; without a retry configuration one attempt |
| Sending.SentIsTrace | src/connection.rs:106-127 | every stream of a call holds a prefix of the frame, and on success the last holds all of it |
| Sending.OversizedWritesNothing | src/wire_msg.rs:150-164 | a payload longer than `u32::MAX` bytes writes no byte on any stream and never succeeds, however often it is retried |
| Sending.StreamYieldsMessageOrNothing | src/connection.rs:363-371 | a stream yields the message exactly when its whole frame arrived and the message is not empty, and never anything else |
| Sending.PeerGetsOneCopyPerFullStream | src/connection.rs:358-374 | whatever reaches the peer, in whatever order, the flattened items hold one copy per stream that arrived in full and no other message |
| Sending.CountArrivedBound | src/connection.rs:106-127 | streams seen each once give no more full streams than the call opened |
| Sending.ListenerNeverInvents | src/connection.rs:398-413 | the same as a bound for a listener that stopped early, and by the number of streams of the call |
| Sending.EmptyMessageIsLost | src/connection.rs:160-175 | an empty message is sent with success and delivered as an error |
| Delivery.ApplicationGetsOnlyCopies | src/connection.rs:100-128 | in every run of the receiving connection, among any other streams and accept failures, each message traced to a stream of the call is what `send_with` was given, from a stream that arrived in full, at most one per stream and no more than the call opened |
| Delivery.ApplicationGetsEveryCopy | src/connection.rs:302-315 | once told there is nothing more, the application has the message from a full stream if and only if nothing accepted before that stream failed or ended with a connection loss |
| Endpoints.ConnectToAny | src/endpoint.rs:280-301 | the first attempt to succeed wins; none exactly when all fail or there are none |
| Endpoints.OnlyTheExpectedReply | src/endpoint.rs:464-490 | an exchange succeeds exactly with the reply that belongs to its request; a failed send, an elapsed timeout, a failed read and an unexpected message each give their own error |
| Endpoints.Endpoint.ResolvePublicAddr | src/endpoint.rs:387-461 | IP and port of the result are each the configured one, else the one the contact sees, else the local one; an echo failure changes nothing |
| Endpoints.Endpoint.NewPeer | src/endpoint.rs:139-191 | success exactly when echo, port mapping and verification of the very address reported all succeed, that address being configured, else visible, else local, field by field; each error names its cause; a port mapping is needed exactly when `forward_port` is set |
| BootstrapSafety.RunsKeepInv | src/endpoint.rs:139-191 | every reachable state of every run, faults included, with any number of concurrent dial-backs and connections, satisfies the bootstrap invariant |
| BootstrapSafety.EchoAnsweredRight | src/connection.rs:469-475 | a connection that has answered a nested echo request has given exactly one answer, the address of its peer |
| BootstrapSafety.JoinedMeansVerified | src/connection.rs:544-596 | success through a contact means the public address is the one sent, its IP and port each configured, else as the contact sees it; the contact received this request once, later dialled the address for it over a connection no other dial of any request used, and got an echo over it for this request; that connection was accepted and answered by the joining peer's listeners exactly when the address leads to it |
| BootstrapProgress.StepDecreasesMeasure | src/endpoint.rs:139-191 | every step of every party uses something up |
| BootstrapProgress.FaultFreeRunsStayLive | src/endpoint.rs:169-191 | without faults, with at most 10,000 connections established by others and nobody silent, the connections taken and to come never exceed what the channel and the accepting loop hold |
| BootstrapProgress.EchoMoves | src/connection.rs:432-475 | a connection with an unanswered nested echo request can accept or read it by itself |
| BootstrapProgress.SomebodyMoves | src/endpoint.rs:499-527 | in such a run some party can move as long as the peer has not joined, the accepting loop past failed handshakes included |
| BootstrapProgress.FaultFreeRunsJoin | src/endpoint.rs:169-191 | fault-free runs with a reachable address, at most 10,000 connections established by others and nobody silent are bounded, never fail, and can stop only when the peer has joined |
| BootstrapCapacity.StalledStays | src/endpoint.rs:500-516 | with the accepting loop blocked in front of the dial-back, on a full channel or a silent handshake, nothing but a fault or timeout ends the wait |
| BootstrapCapacity.BusyLoopCanStall | src/endpoint.rs:499-527 | from every initial state with more than 10,000 such connections, or with one silent stranger, there is a fault-free run that ends before the peer has joined |
| BootstrapCapacity.OneSilentStrangerStalls | src/endpoint.rs:500-502 | one silent stranger is enough, with nobody else about |
| BootstrapCapacity.JoinsIffNobodyKeepsTheLoop | src/endpoint.rs:169-191 | every fault-free run that cannot go on has joined, if and only if at most 10,000 connections can be established by others and no stranger stays silent |
| Igd.CastIsLossless | src/igd.rs:39-42 | the lease has the whole seconds of the interval, or 4,294,967,295 seconds for any longer interval; the cast loses nothing |
| Igd.RenewLoop | src/igd.rs:39-61 | the lease asked for, and renewals exactly one interval apart (the longest lease apart for longer intervals), at the ticks before the first that finds a termination signal |
| Igd.RenewalGap | src/igd.rs:41-48 | a renewal comes between zero and less than one second after the lease before it ends, exactly by the fraction in the interval |
| Igd.UnbrokenIffWholeSeconds | src/igd.rs:39-61 | the port stays mapped throughout any number of renewals if and only if the interval is under a second, a whole number of seconds, or longer than the longest lease |

## Left out

- QUIC, TLS, certificates and sockets: only the ordered-byte-stream contract and the error events of the QUIC library are kept.
- The serialiser of service messages: a parameter with a contract; serialising is taken to be infallible, as `src/error.rs:334` expects.
- Timing and jitter of retries: a call makes the attempts its budget holds; how many that is depends on clocks.
- In `Listeners`, `SharedSend` and `Bootstrap` the state is a value, not an object: interleavings are steps between values, so updates in place and aliasing are not represented there.
- In `Listeners` one read of a message, with the answer to a request, is one step: the wait for the send half is in `SharedSend`, and an answer that cannot be written is in `BiHandler`.
- In `Bootstrap` the joining peer's two requests and their answers are exchanged whole; that they survive framing is what the round trips of `WireProofs` state. A contact that does not follow the protocol is outside the safety claim.
- In `Bootstrap` the handshakes of dial-backs finish, since the contact follows the protocol, and timeouts are faults, so how long a stall lasts is not modelled. The application takes no connection from the channel while `new_peer` runs; afterwards it may receive from them and drop them, but clones no handle.
- The branch for a value on the alive channel (`src/connection.rs:383-386`): nothing ever sends one.
- UPnP gateway search and mapping calls, renewals that fail, and ticks missed because a renewal took too long.
- IPv6 flow labels and scope identifiers: an address is an IP and a port.
- `is_reachable`, `new_client`, `close`, `RecvStream::next`, stream priorities, configuration parsing, formatting and logging: they would add only easy members.
- Connection pooling described in comments: no code implements it.
