# Geph5 transport core, modelled and verified in Dafny

Geph5 is a circumvention system. This project models the parts of it that move bytes: the
`picomux` stream multiplexer, the `sosistab3` encrypted record layer with its handshake and
replay table, the connection test, the dialer combinators and route compiler, the Merkle tree
behind `mizaru2`, the HTTP proxy's hop-by-hop header rewriting and the client's traffic
history. Every file is verified with Dafny 4.11; `dafny verify dfyconfig.toml` checks it all.

## What is proved

**picomux.** `PicomuxLink` is one stream between two endpoints: two halves, two FIFO lines, and
a step for each piece of code that runs between two awaits. One inductive invariant gives
credit conservation, byte transparency, FIN ordering and dead error branches. `PicomuxEndpoint`
is a whole endpoint with its buffer table, tasks and outgoing queue, as functions and as the
class that performs them in place. `PicomuxMux` joins two endpoints that carry any number of
streams and proves that every step of the system is, for each stream, one step of that stream's
link or no step at all. So each stream behaves as if it were alone, and every theorem about a
link holds for every stream of every run. `PicomuxProgress` bounds all that two multiplexers
can do without new work, and shows that when they are done every live stream has delivered
every byte; a reader that stops holds up its own stream and no other. `PicomuxService` says it
in the applications' own terms: what comes out of a stream is what was handed over, in order
and in the end all of it, with the metadata it was opened with; closing one end is noticed at
the other after all data; ids can be used again; every PING is answered. The bandwidth estimate
is any number at all; only its clamp to [10, 1500] is used. The refill threshold is one round
stale, and the window still never drops below eight, which is also reached.

**sosistab3.** The record layer is proved for every schedule of partial writes and reads: what
`poll_read` returns is a prefix of what `poll_write` took in, and all of it once the buffers
are empty. Decoding does not depend on how the ciphertext is cut, for any bytes, honest or not.
What is handed out was authenticated, and if the cipher cannot be forged no tampering with the
wire can make the reader return anything but what was sent. All that is written comes from
calls of the cipher that never share a nonce. Who is let in is stated exactly, and the listener
keeps replays one expiry apart in every run of connections. The handshake leaves both ends
exactly at the first record byte with each other's keys, and the records that follow in either
direction decode to their plaintext.

**The rest.** Merkle completeness, and binding by extraction: an accepted branch of any length
is the right one, or a hash collision is computed from it; the meaning of compiled routes over
time; clean hand-over of the connection test; spacing and size of the replay table; the exact
conditions under which header removal follows section 6.1 and the persistence check section 6.3
of RFC 7230; the traffic bins as the tail of a list of per-second sums.

## Reading the model

- Steps. An `async` task is modelled by the steps it takes between awaits. A poll that
  completes is a step; a poll that is pending is no step. `open_req_loop` queues the SYN and
  creates the entry without an await in between, so that is one step.
- Applications. Writing to the application (`write_all` on a bounded pipe, lib.rs:237-240) is
  possible only while it reads. `AtRest` therefore does not ask for writing to be impossible,
  and `RestMeansDelivered` excludes exactly a receiver that holds a frame its
  application has not read. `StreamsComeToRest`, `InternalRunsAreFinite` and
  `EverythingIsDelivered` count writing as a step the system may take.
- Assumptions about picomux. A stream id is given to a new stream only when no trace of an
  earlier one with that id is left at either end or on the way (ids are random 32-bit numbers),
  SYN metadata and PING bodies are shorter than 65536 bytes (`NewFrameRoundTrip` shows that
  this is exactly what framing needs), and the JSON of an honest PING parses.
- Cryptography. The authenticated cipher, the hashes, key derivation and Diffie-Hellman are
  parameters. What is assumed of them is stated in `Lawful`, `Sound`, `PairInjective`,
  `LeafInjective`, `Separated` and `Unforgeable`, and appears in the `requires` of each result that needs it.
- Randomness and clocks are parameters: padding jitter, handshake padding, ping payloads, and
  the times of the replay table and the traffic bins, on a clock that does not run backwards.
- The lower pipe of `sosistab3` is the list of answers it gives to successive polls. A writer
  that was left pending offers the same buffer again, as the comment in `poll_write` demands.
  An `Arrived([])` answer is end of file; the code also takes a read into a zero-length buffer
  for end of file, and the model does the same.
- Counters and lengths are unbounded integers except where the width matters: frame body
  lengths (u16), MORE quanta (u16), record lengths (i32, with its wrap-around), epochs (u16,
  with the abort on over-long shifts), nonces (distinct below 2^64). Release builds abort on
  arithmetic overflow, so `remote_window -= 1` is a `nat` subtraction that has to be proved safe.
- Where a test and the code disagree the code is followed: `test_traffic_cleanup` expects one
  bin where the loop leaves two.
- A result that turned out false is given with its exact condition: `RecordRoundTrip` (records
  of 2^31 bytes and more), `NewFrameRoundTrip` (bodies of 65536 bytes and more),
  `ClearingMeetsTheRfc` (a header named "close") and `KeepAliveMeetsTheRfc` ("close" listed among
  other options or before a keep-alive, and keep-alive over HTTP/1.0, which section 6.3 of
  RFC 7230 denies to proxies).

## Model

| member | source | states |
|---|---|---|
| `PicomuxWindow.SettleKeepsSane` | libraries/picomux/src/lib.rs:241-269 | a round keeps the window in its invariant, adds to it exactly what it grants, and the quantum fits a u16 |
| `PicomuxWindow.SettleGrants` | libraries/picomux/src/lib.rs:246-268 | credit is granted exactly when the window can be raised to the clamped new target by at least one and at least a tenth of the old target, and it is then raised to it |
| `PicomuxWindow.WindowNeverStarves` | libraries/picomux/src/lib.rs:218-269 | for every sequence of targets no round underflows and every loop head has between 8 and 1500 credits outstanding, although the threshold is one round stale |
| `PicomuxWindow.EightIsReached` | libraries/picomux/src/lib.rs:223-253 | the lower bound 8 is attained by a concrete run |
| `PicomuxWindow.EightAlwaysRefills` | libraries/picomux/src/lib.rs:253-268 | at eight the next round grants credit whatever the new target is |
| `PicomuxFrame.FrameRoundTrip` | libraries/picomux/src/frame.rs:40-59 | reading the bytes of a frame gives it back and stops at its end, whatever follows |
| `PicomuxFrame.FrameLayout` | libraries/picomux/src/frame.rs:62-69 | the eight header bytes one by one, numbers low byte first, then the body |
| `PicomuxFrame.NewFrameHeader` | libraries/picomux/src/frame.rs:27-36 | constructed frames have version one and the length modulo 65536 |
| `PicomuxFrame.FrameReadIsExact` | libraries/picomux/src/frame.rs:40-51 | whatever is read re-encodes to the bytes consumed, so the format is unambiguous |
| `PicomuxFrame.NewFrameRoundTrip` | libraries/picomux/src/frame.rs:27-36 | a constructed frame survives the wire for every continuation iff its body is shorter than 65536 bytes |
| `PicomuxFrame.ReadAllIncremental` | libraries/picomux/src/frame.rs:40-51 | reading is incremental: later bytes are read from the leftover of earlier ones |
| `PicomuxFrame.PartialFrameWaits` | libraries/picomux/src/frame.rs:40-51 | no frame is read before its last byte has arrived |
| `PicomuxFrame.WireIsFrameQueue` | libraries/picomux/src/frame.rs:40-59 | from any part of the encoding of a list of frames the reader recovers a prefix of the list, and all of it from all of the bytes |
| `PicomuxFrame.ToBytes` | libraries/picomux/src/frame.rs:54-59 | filling the buffer in place yields the encoding |
| `PicomuxTable.BuffersStayBounded` | libraries/picomux/src/buffer_table.rs:53-65 | under any sequence of calls no buffer exceeds 2 * MAX_WINDOW + 1 frames |
| `PicomuxTable.FramesAreKept` | libraries/picomux/src/buffer_table.rs:53-65 | a frame for a known stream is kept behind the others unless more than 3000 are waiting |
| `PicomuxTable.EntryLifeCycle` | libraries/picomux/src/buffer_table.rs:39-122 | a new stream has ten permits and no frames, frames come out in the order they went in, and removal removes |
| `PicomuxTable.CallsAreIndependent` | libraries/picomux/src/buffer_table.rs:26-92 | a call for one stream leaves every other entry alone |
| `PicomuxTable.BufferTable.ContainsId` | libraries/picomux/src/buffer_table.rs:35-37 | answers whether the id has an entry |
| `PicomuxTable.BufferTable.CreateEntry` | libraries/picomux/src/buffer_table.rs:39-51 | the entry is new, empty and holds INIT_WINDOW permits; other entries stay |
| `PicomuxTable.BufferTable.SendFrame` | libraries/picomux/src/buffer_table.rs:53-65 | the frame is appended, or dropped for an unknown stream or an over-full buffer |
| `PicomuxTable.BufferTable.TryAcquire` | libraries/picomux/src/buffer_table.rs:68-77 | takes one permit iff there is one |
| `PicomuxTable.BufferTable.IncrSendWindow` | libraries/picomux/src/buffer_table.rs:80-91 | adds the permits to a known stream and is ignored otherwise |
| `PicomuxTable.BufferTable.TryRecv` | libraries/picomux/src/buffer_table.rs:104-111 | takes the oldest buffered frame iff there is one |
| `PicomuxTable.BufferTable.DropReceiver` | libraries/picomux/src/buffer_table.rs:118-122 | removes the entry and nothing else |
| `PicomuxLink.FinIsLast` | libraries/picomux/src/lib.rs:225-227 | when the FIN is next to be dequeued nothing else is on the way and every byte sent has been delivered |
| `PicomuxLink.DeliveryAccepted` | libraries/picomux/src/lib.rs:409-448 | between honest halves no delivery is refused and the buffer is far from full |
| `PicomuxLink.InboxBounded` | libraries/picomux/src/buffer_table.rs:53-65 | an honest stream never has more than MAX_WINDOW + 1 frames buffered |
| `PicomuxLink.StepKeepsInv` | libraries/picomux/src/lib.rs:201-329 | every step of a stream keeps ordering, transparency and credit conservation in both directions |
| `PicomuxLink.RunKeepsInv` | libraries/picomux/src/lib.rs:201-329 | every interleaving of the two halves keeps them |
| `PicomuxLink.InternalStepShrinks` | libraries/picomux/src/lib.rs:214-302 | every step of the multiplexer itself uses up work |
| `PicomuxLink.InternalRunsAreFinite` | libraries/picomux/src/lib.rs:214-302 | without new work from the applications a stream comes to rest within a computed number of steps |
| `PicomuxLink.BusyHalfCanStep` | libraries/picomux/src/lib.rs:214-302 | a live half that still has something to do can take a step that waits for nobody, unless its application has stopped reading |
| `PicomuxLink.RestMeansDelivered` | libraries/picomux/src/lib.rs:218-269 | at rest, with the receiving application not holding up a frame, everything sent has been delivered and the sender holds the whole window, at least eight permits |
| `PicomuxLink.InternalRunStaysConnected` | libraries/picomux/src/lib.rs:214-302 | the multiplexer never ends a stream by itself and loses nothing it was handed |
| `PicomuxLink.RestMeansClosed` | libraries/picomux/src/lib.rs:307-326 | when one end has stopped and nothing moves, the FIN has been seen at the other end after every byte sent |
| `PicomuxLink.RunKeepsBooks` | libraries/picomux/src/lib.rs:274-299 | in every run all that an application handed over is in PSH frames or about to be while its end runs |
| `PicomuxEndpoint.ReactKeepsSafe` | libraries/picomux/src/lib.rs:400-476 | any event, from any peer, keeps all windows in their invariant and all buffers bounded |
| `PicomuxEndpoint.HostilePeerIsContained` | libraries/picomux/src/lib.rs:218-269 | whatever the peer sends, every window of every stream stays between 8 and 1500 |
| `PicomuxEndpoint.PingIsAnswered` | libraries/picomux/src/lib.rs:451-465 | a PING whose body parses queues one empty PONG on stream zero and does nothing else |
| `PicomuxEndpoint.FatalFrames` | libraries/picomux/src/lib.rs:409-474 | for every command byte, exactly when the frame ends the connection and with which error |
| `PicomuxEndpoint.FrameEffects` | libraries/picomux/src/lib.rs:409-468 | what each accepted frame does to the table, the tasks, the permits and the ping loop |
| `PicomuxEndpoint.Outgoing.Push` | libraries/picomux/src/outgoing.rs:53-62 | the frame goes to the end of the queue |
| `PicomuxEndpoint.Outgoing.Pop` | libraries/picomux/src/outgoing.rs:72-82 | the writer loop takes the oldest frame |
| `PicomuxEndpoint.Mux.Spawn` | libraries/picomux/src/lib.rs:201-329 | creating a stream creates its entry and a task with a full initial window and the stream's metadata |
| `PicomuxEndpoint.Mux.OpenReq` | libraries/picomux/src/lib.rs:332-351 | the SYN is queued and the stream created |
| `PicomuxEndpoint.Mux.HandleFrame` | libraries/picomux/src/lib.rs:400-476 | each command has the effect stated in PingIsAnswered, FrameEffects and FatalFrames, in place; windows stay in range and buffers bounded whatever the frame |
| `PicomuxEndpoint.Mux.Take` | libraries/picomux/src/lib.rs:279-297 | the incoming task holds the body it has read |
| `PicomuxEndpoint.Mux.PollPermit` | libraries/picomux/src/lib.rs:298 | the incoming task proceeds iff a permit is free, and then holds it |
| `PicomuxEndpoint.Mux.SendBody` | libraries/picomux/src/lib.rs:289-299 | the body goes out as one PSH frame |
| `PicomuxEndpoint.Mux.Stop` | libraries/picomux/src/lib.rs:319-326 | ending a task removes its entry and everything buffered |
| `PicomuxEndpoint.Mux.PollRecv` | libraries/picomux/src/lib.rs:224-227 | the next frame is taken for writing; a FIN ends the stream's task |
| `PicomuxEndpoint.Mux.WriteSome` | libraries/picomux/src/lib.rs:237-240 | a piece of the body reaches the application |
| `PicomuxEndpoint.Mux.FrameWritten` | libraries/picomux/src/lib.rs:241-269 | the window is settled in place without underflow and stays in its invariant; a MORE is queued iff credit is granted |
| `PicomuxEndpoint.Mux.Announce` | libraries/picomux/src/lib.rs:307-318 | the FIN is queued after the stream's task has ended |
| `PicomuxMux.TaskStepRefines` | libraries/picomux/src/lib.rs:214-326 | a task's step is possible iff its link's step is, has the same effect on its own stream and none on any other |
| `PicomuxMux.DispatchRefines` | libraries/picomux/src/lib.rs:400-476 | dispatching an honest frame is a link delivery for its own stream and nothing for any other |
| `PicomuxMux.OpenRefines` | libraries/picomux/src/lib.rs:332-351 | opening a stream starts its link and touches no other |
| `PicomuxMux.TransmitRefines` | libraries/picomux/src/outgoing.rs:72-82 | moving the oldest frame to the wire is a step of its stream only |
| `PicomuxMux.ActionMatches` | libraries/picomux/src/lib.rs:184-479 | every action of the system is one link step for its stream and no step for all others |
| `PicomuxMux.StreamRunsItsLink` | libraries/picomux/src/lib.rs:184-479 | after any run of many streams, the state of a stream is what its own link reaches by the stream's own steps |
| `PicomuxMux.OtherTrafficIsInvisible` | libraries/picomux/src/lib.rs:184-479 | two runs in which a stream takes the same steps leave it in the same state, whatever the other streams did |
| `PicomuxMux.ReachableIsSymmetric` | libraries/picomux/src/lib.rs:184-479 | the two endpoints play the same role, so every result also holds in the other direction |
| `PicomuxMux.DeliveryNeverFails` | libraries/picomux/src/lib.rs:409-474 | between honest endpoints the dispatch of a frame is fatal iff it is a SYN and the application has dropped its accept queue |
| `PicomuxMux.PipeCarriesFrames` | libraries/picomux/src/outgoing.rs:72-82 | the frames queued and in flight in any reachable state survive the byte pipe in order |
| `PicomuxMux.BytesArriveInOrder` | libraries/picomux/src/lib.rs:274-327 | what a stream's receiver has written is a prefix of what its sender put in PSH frames, and equal to it once the FIN has been dequeued |
| `PicomuxMux.CreditIsConserved` | libraries/picomux/src/buffer_table.rs:39-91 | permits, a held permit, PSH frames on the way, the frame being written and MORE quanta on the way add up to the receiver's window |
| `PicomuxMux.SenderIsNeverStarved` | libraries/picomux/src/lib.rs:218-269 | with nothing of the stream on the way, its sender holds at least eight permits |
| `PicomuxMux.BuffersNeverOverflow` | libraries/picomux/src/buffer_table.rs:53-65 | the branch that drops frames for a full buffer is never taken |
| `PicomuxProgress.RestMeansDelivered` | libraries/picomux/src/lib.rs:218-302 | when both multiplexers are at rest every live stream whose receiver is not holding up a frame has delivered all it was given and holds its whole window, whatever the readers of other streams do |
| `PicomuxProgress.StreamsComeToRest` | libraries/picomux/src/lib.rs:214-302 | without new work from the applications each stream takes a bounded number of steps, whatever the others do |
| `PicomuxProgress.ActionShrinks` | libraries/picomux/src/lib.rs:184-479 | every action of a multiplexer, moving PING and PONG frames included, uses up work of the whole system |
| `PicomuxProgress.InternalRunsAreFinite` | libraries/picomux/src/lib.rs:184-479 | every run without new work is at most as long as the work of the state it starts from |
| `PicomuxProgress.FinishedIsReached` | libraries/picomux/src/lib.rs:184-479 | such a run can always be continued until nothing more can happen |
| `PicomuxProgress.EverythingIsDelivered` | libraries/picomux/src/lib.rs:184-479 | from any reachable state every run is bounded, and whenever one cannot go on every live stream has delivered every byte it was given |
| `PicomuxService.DeliveredWasHandedOver` | libraries/picomux/src/lib.rs:184-479 | in any run of any streams, what one application got on a stream is a prefix of what the other handed over on it since it was opened, and all of it when the stream is live and nothing can move |
| `PicomuxService.BodyIsTaken` | libraries/picomux/src/lib.rs:279-297 | a body of 1 to 8192 bytes can be handed over exactly when none is waiting |
| `PicomuxService.StreamCanEnd` | libraries/picomux/src/lib.rs:319-326 | a live stream can be ended at any time |
| `PicomuxService.ConnectedStreamDelivers` | libraries/picomux/src/lib.rs:184-479 | an open or opening stream stays so while the multiplexers work, and in the end has delivered everything in both directions |
| `PicomuxService.OpenedStreamDelivers` | libraries/picomux/src/lib.rs:332-351 | in every reachable state an unused id can be opened and a first body handed over, and in every order of work the other end gets a stream with that metadata and exactly that body |
| `PicomuxService.EveryBodyArrives` | libraries/picomux/src/lib.rs:274-299 | a further body reaches the other end behind everything sent before |
| `PicomuxService.CloseArrives` | libraries/picomux/src/lib.rs:307-327 | when one end has stopped, the other gets every byte sent and then the FIN, and the id can be opened again |
| `PicomuxService.PingsAreAnswered` | libraries/picomux/src/lib.rs:354-465 | PONGs received never exceed PINGs sent, and are as many when nothing moves |
| `PicomuxService.PingCanBeSent` | libraries/picomux/src/lib.rs:367-381 | a PING can be sent iff its body is shorter than 65536 bytes |
| `SosistabRecord.NoncesAreDistinct` | libraries/sillad-sosistab3/src/state.rs:60-65 | distinct counters below 2^64 give distinct nonces |
| `SosistabRecord.NonceLayout` | libraries/sillad-sosistab3/src/state.rs:60-65 | twelve bytes: the counter low byte first in eight, then four zeros |
| `SosistabRecord.DataLengthSurvives` | libraries/sillad-sosistab3/src/state.rs:87-92 | a data length survives the signed field iff it is below 2^31 |
| `SosistabRecord.PaddingLengthSurvives` | libraries/sillad-sosistab3/src/state.rs:87-92 | a padding length comes back negated |
| `SosistabRecord.LengthFieldLayout` | libraries/sillad-sosistab3/src/state.rs:87-92 | the four length bytes and the signed number they are read as |
| `SosistabRecord.RecordOpens` | libraries/sillad-sosistab3/src/state.rs:84-130 | a record followed by anything opens to its body, or to nothing for padding, and stops at its own end |
| `SosistabRecord.RecordRoundTrip` | libraries/sillad-sosistab3/src/state.rs:84-211 | a data record reads back as sealed iff its plaintext is shorter than 2^31 bytes |
| `SosistabRecord.PartialRecordWaits` | libraries/sillad-sosistab3/src/state.rs:139-180 | an honest record is neither accepted nor refused before its last byte |
| `SosistabRecord.DecodeOne` | libraries/sillad-sosistab3/src/state.rs:139-211 | a successful attempt uses at least 36 bytes and no more than there are; what it hands out is stated in OpenedIsAuthentic, what it refuses in RefusedIffForged |
| `SosistabRecord.OpenedIsAuthentic` | libraries/sillad-sosistab3/src/state.rs:139-211 | what is handed out passed both tags under two consecutive nonces, and is the second text, or nothing for padding |
| `SosistabRecord.RefusedIffForged` | libraries/sillad-sosistab3/src/state.rs:139-203 | an attempt is refused iff a tag that has arrived is wrong, and asks for more iff fewer than 24 bytes or less than the announced record has arrived |
| `SosistabRecord.VerdictIsStable` | libraries/sillad-sosistab3/src/state.rs:139-211 | a verdict other than "too short" does not change when more bytes arrive |
| `SosistabRecord.DecodeAllAppend` | libraries/sillad-sosistab3/src/lib.rs:209-234 | decoding a longer stream is decoding the rest from where the shorter one stopped |
| `SosistabRecord.ChunkingDoesNotMatter` | libraries/sillad-sosistab3/src/lib.rs:201-234 | for every byte stream and every way of cutting it, plaintext, leftover, counter and verdict are those of whole-stream decoding |
| `SosistabRecord.NextPowerOfTwoIsLeast` | libraries/sillad-sosistab3/src/state.rs:74-75 | the result is the least power of two not below its argument |
| `SosistabRecord.PaddingFits` | libraries/sillad-sosistab3/src/state.rs:73-78 | no subtraction underflows and the padding fits the 2000-byte buffer |
| `SosistabRecord.PaddedWireLength` | libraries/sillad-sosistab3/src/state.rs:68-82 | a padded write is 2^k + jitter bytes long, where 2^k is the least power of two that is at least the plaintext length plus 72 |
| `SosistabRecord.UnpaddedWireLength` | libraries/sillad-sosistab3/src/state.rs:68-82 | without obfuscation, or from a framed length of 2000, the wire length is 36 more than the plaintext |
| `SosistabRecord.PartsMeaning` | libraries/sillad-sosistab3/src/state.rs:68-82 | the plaintext goes first; a second record of zeros is padding and is sent iff obfuscation is on and the framed length is below 2000 |
| `SosistabRecord.EncryptIsCiphertext` | libraries/sillad-sosistab3/src/state.rs:68-82 | one encrypt is its list of records, whose plaintext is the input |
| `SosistabRecord.DecoderStaysInStep` | libraries/sillad-sosistab3/src/state.rs:139-211 | after any number of bytes of an honest direction the decoder has opened exactly the first d records, advanced its counter by 2d and kept part of the next one |
| `SosistabRecord.CiphertextIsSealed` | libraries/sillad-sosistab3/src/state.rs:84-130 | a direction is the output of a list of cipher calls, two per record, and nothing else |
| `SosistabRecord.NonceNeverReused` | libraries/sillad-sosistab3/src/state.rs:60-65 | no two of the calls that seal a direction share a nonce while the 64-bit counter lasts |
| `SosistabRecord.State.NoncesAreFresh` | libraries/sillad-sosistab3/src/state.rs:60-65 | the cipher calls logged by the state in place never share a nonce while the 64-bit counter lasts |
| `SosistabRecord.TamperingIsHarmless` | libraries/sillad-sosistab3/src/state.rs:139-211 | if nothing opens but what the peer sealed, then for any bytes on the wire at all the output is the plaintext of the first records in order and nothing else |
| `SosistabRecord.KeyLabels` | libraries/sillad-sosistab3/src/state.rs:25-36 | the client sends under up and the server under dn |
| `SosistabRecord.State.constructor` | libraries/sillad-sosistab3/src/state.rs:25-54 | each side's send key is the other side's receive key |
| `SosistabRecord.State.NextSendNonce` | libraries/sillad-sosistab3/src/state.rs:60-65 | returns the counter as a nonce and advances it by one |
| `SosistabRecord.State.EncryptInner` | libraries/sillad-sosistab3/src/state.rs:84-130 | appends one record, reports its size and makes exactly its two cipher calls, each with the next unused nonce |
| `SosistabRecord.State.EncryptHunk` | libraries/sillad-sosistab3/src/state.rs:68-82 | appends the data record and its padding and makes exactly their cipher calls; the asserted length equation holds |
| `SosistabRecord.State.Decrypt` | libraries/sillad-sosistab3/src/state.rs:139-211 | appends the authenticated body and advances the counter by two on success, and changes nothing when more is needed or a tag is wrong |
| `SosistabPipe.WriteLoopConserves` | libraries/sillad-sosistab3/src/lib.rs:124-147 | what the lower pipe took and what is left make up the buffer, and the write reports success iff all of it went |
| `SosistabPipe.PollReadConserves` | libraries/sillad-sosistab3/src/lib.rs:186-238 | a read poll accounts for every byte it took: returned, buffered as plaintext or left over as ciphertext |
| `SosistabPipe.WriteKeepsInv` | libraries/sillad-sosistab3/src/lib.rs:112-148 | a write poll, however it is cut short, keeps the session invariant |
| `SosistabPipe.ReadKeepsInv` | libraries/sillad-sosistab3/src/lib.rs:181-239 | a read poll, whatever it receives of the wire, keeps the session invariant and fails only if the lower pipe does |
| `SosistabPipe.ReadReturnsBuffer` | libraries/sillad-sosistab3/src/lib.rs:186-194 | a read with something decoded returns as much of it as fits and touches nothing else |
| `SosistabPipe.ReadPollMeans` | libraries/sillad-sosistab3/src/lib.rs:186-238 | what bytes, no bytes, pending and an error each mean: no bytes for a caller with room mean end of file with everything returned |
| `SosistabPipe.ReadsDrainBuffer` | libraries/sillad-sosistab3/src/lib.rs:186-194 | enough reads of any nonzero size return all that was decoded, in order |
| `SosistabPipe.PipeIsTransparent` | libraries/sillad-sosistab3/src/lib.rs:112-239 | for every schedule: bytes returned are a prefix of bytes taken in, all of them once drained; each plaintext is encrypted once; exactly the first d records have been opened and their plaintext returned or buffered, and the counters differ by two per record not yet opened |
| `SosistabPipe.WriteCompletes` | libraries/sillad-sosistab3/src/lib.rs:112-148 | any buffer below 2^31 bytes can be written and reports its length once the lower pipe has taken it |
| `SosistabPipe.EverythingCanBeRead` | libraries/sillad-sosistab3/src/lib.rs:112-239 | from any point of any session without end of file, one write poll and two reads return everything ever taken in |
| `SosistabPipe.SessionNeverReusesNonces` | libraries/sillad-sosistab3/src/state.rs:60-130 | in every run all that was written is the output of cipher calls, as many as the send counter says, and no two share a nonce |
| `SosistabPipe.Pipe.WriteOut` | libraries/sillad-sosistab3/src/lib.rs:124-147 | the loop in place drains the buffer as the lower pipe allows |
| `SosistabPipe.Pipe.Write` | libraries/sillad-sosistab3/src/lib.rs:112-148 | a write poll in place has the result and effect of the modelled poll, calls the cipher only for a buffer that is not already pending, and leaves the read side alone |
| `SosistabPipe.Pipe.DecryptAll` | libraries/sillad-sosistab3/src/lib.rs:209-234 | the inner loop in place decodes until stuck |
| `SosistabPipe.Pipe.Read` | libraries/sillad-sosistab3/src/lib.rs:181-239 | a read poll in place has the result and effect of the modelled poll, which ReadPollMeans and ReadReturnsBuffer explain, and leaves the write side alone |
| `SosistabHandshake.MessageRoundTrip` | libraries/sillad-sosistab3/src/handshake.rs:55-81 | the 112-byte message parses back to the same handshake |
| `SosistabHandshake.EnvelopeRoundTrip` | libraries/sillad-sosistab3/src/handshake.rs:22-53 | the 140-byte envelope opens to the handshake sealed in it |
| `SosistabHandshake.HelloLayout` | libraries/sillad-sosistab3/src/handshake.rs:55-64 | the byte ranges of the message an end sends |
| `SosistabHandshake.HelloAligns` | libraries/sillad-sosistab3/src/listener.rs:62-78 | reading a hello stops exactly after its padding, for every padding length |
| `SosistabHandshake.ServerAcceptsIff` | libraries/sillad-sosistab3/src/listener.rs:56-142 | the server lets a client in iff the envelope opens, the padding hashes as announced, the clocks agree to 30 seconds and the envelope is new; its keys and position are given |
| `SosistabHandshake.ClientAcceptsIff` | libraries/sillad-sosistab3/src/dialer.rs:62-99 | the client accepts iff the envelope opens, quotes the hash of its own envelope and the padding hashes as announced; its keys and position are given |
| `SosistabHandshake.HandshakeAgrees` | libraries/sillad-sosistab3/src/listener.rs:56-142 | both ends finish, each has consumed exactly the other's hello, each holds the other's keys, and both take the padding switch of the cookie |
| `SosistabHandshake.RecordsFollowHandshake` | libraries/sillad-sosistab3/src/listener.rs:130-142 | whatever records follow either end's hello, the other end decodes them to their plaintext with nothing left over |
| `SosistabHandshake.SendClientHello` | libraries/sillad-sosistab3/src/dialer.rs:26-54 | the envelope and then the padding go out |
| `SosistabHandshake.FinishClient` | libraries/sillad-sosistab3/src/dialer.rs:62-99 | short, forged, unrelated or badly padded answers are refused; otherwise the keys are derived and the stream stands after the answer |
| `SosistabHandshake.AcceptClient` | libraries/sillad-sosistab3/src/listener.rs:56-142 | the verdict of ServerAcceptsIff in place; a refused hello gets no answer and leaves the replay table alone, an accepted one is remembered and answered |
| `SosistabHandshake.ReplayIsRefused` | libraries/sillad-sosistab3/src/listener.rs:96-102 | an envelope that is remembered is refused and changes nothing |
| `SosistabHandshake.ListenerSpacesReplays` | libraries/sillad-sosistab3/src/listener.rs:96-103 | in any run of connections, two with the same envelope that are both let in are at least one expiry apart |
| `SosistabHandshake.NewReplayTable` | libraries/sillad-sosistab3/src/listener.rs:41-47 | the listener remembers envelopes for 60 seconds |
| `SosistabDedup.Dedup.Sweep` | libraries/sillad-sosistab3/src/dedup.rs:30-33 | entries whose age, by a clock read for each entry, has reached the expiry go, and the size is noted |
| `SosistabDedup.Dedup.Add` | libraries/sillad-sosistab3/src/dedup.rs:23-28 | the key is recorded, with a sweep iff the table has more than doubled |
| `SosistabDedup.Dedup.Contains` | libraries/sillad-sosistab3/src/dedup.rs:35-37 | answers whether the key is remembered |
| `SosistabDedup.InsertForgetsLittle` | libraries/sillad-sosistab3/src/dedup.rs:22-33 | an insertion forgets nothing unless the table has more than doubled, and then exactly the expired keys |
| `SosistabDedup.FirstKeysStay` | libraries/sillad-sosistab3/src/dedup.rs:13-28 | the first two keys stay whatever the expiry |
| `SosistabDedup.PassKeepsInv` | libraries/sillad-sosistab3/src/listener.rs:96-103 | the gate forgets a handshake only when it has expired |
| `SosistabDedup.ReplaysAreSpaced` | libraries/sillad-sosistab3/src/listener.rs:96-103 | in every run two acceptances of the same handshake are at least one expiry apart |
| `SosistabDedup.TableStaysSmall` | libraries/sillad-sosistab3/src/dedup.rs:22-33 | the table never exceeds twice the larger of one and the peak number of distinct keys in one expiry window |
| `ConnTest.DialTest` | libraries/sillad-conntest/src/lib.rs:21-54 | the dialer succeeds iff what comes back starts with its payloads, and then has written exactly the test and read exactly the echoes |
| `ConnTest.ListenTest` | libraries/sillad-conntest/src/lib.rs:82-96 | the listener's loop echoes and hands over as the reference run does |
| `ConnTest.EchoPings` | libraries/sillad-conntest/src/lib.rs:83-95 | the pings are echoed in order and nothing after them is touched |
| `ConnTest.PingLayout` | libraries/sillad-conntest/src/lib.rs:25-32 | a ping is its length in two bytes, high byte first, and the payload |
| `ConnTest.PartialPingIsNotEchoed` | libraries/sillad-conntest/src/lib.rs:84-95 | nothing of a ping is echoed before all of it has arrived |
| `ConnTest.TestHandsOverCleanly` | libraries/sillad-conntest/src/lib.rs:82-96 | for any pings and any following traffic the listener hands over having consumed exactly the test |
| `ConnTest.EchoIsImmediate` | libraries/sillad-conntest/src/lib.rs:23-50 | each echo is complete before the next ping is sent, so the dialer never waits for itself |
| `Merkle.BuildLevel` | libraries/mizaru2/src/lib.rs:57-59 | each node is the hash of its two children |
| `Merkle.BuildTree` | libraries/mizaru2/src/lib.rs:53-61 | the loop builds all levels |
| `Merkle.RootIsLast` | libraries/mizaru2/src/lib.rs:114-116 | the last level is the single root |
| `Merkle.SmallTrees` | libraries/mizaru2/src/lib.rs:57-59 | which nodes are hashed together and in which order |
| `Merkle.TreeDepth` | libraries/mizaru2/src/lib.rs:53-61 | a tree over 2^k leaves has k + 1 levels |
| `Merkle.MerkleBranch` | libraries/mizaru2/src/lib.rs:96-111 | the loop collects the neighbour at every level below the root |
| `Merkle.VerifyMember` | libraries/mizaru2/src/lib.rs:200-220 | accepts iff the fold reaches the root, and aborts iff the branch is longer than sixteen |
| `Merkle.FoldOrder` | libraries/mizaru2/src/lib.rs:207-213 | an even node is hashed before its neighbour and an odd one after it |
| `Merkle.BranchReachesRoot` | libraries/mizaru2/src/lib.rs:96-111 | folding the branch of any leaf reproduces the root |
| `Merkle.EveryKeyVerifies` | libraries/mizaru2/src/lib.rs:200-220 | every key verifies at its own epoch with the branch handed out for it |
| `Merkle.EveryEpochHasALeaf` | libraries/mizaru2/src/lib.rs:13 | the real tree has 2^16 leaves, one for every u16 epoch |
| `Merkle.FoldBindsOrCollides` | libraries/mizaru2/src/lib.rs:206-214 | for any hash, a full-depth fold that reaches the root used the right node and branch, or two pairs of nodes with the same hash are computed from it |
| `Merkle.AcceptedOrCollision` | libraries/mizaru2/src/lib.rs:200-220 | for any hash and any branch length, acceptance means full depth and the right subkey, or two different inputs with the same hash are computed from the branch |
| `Merkle.FoldIsBinding` | libraries/mizaru2/src/lib.rs:206-214 | with an injective pair hash, a full-depth fold that reaches the root started at the right node and used the right branch |
| `Merkle.AcceptedKeyIsGenuine` | libraries/mizaru2/src/lib.rs:200-220 | an accepted full-depth branch forces the subkey to be the one built for that epoch |
| `Merkle.AnyAcceptedKeyIsGenuine` | libraries/mizaru2/src/lib.rs:200-220 | with key and node hashes apart, acceptance alone forces full depth and the right subkey |
| `Routes.RaceOkExtends` | libraries/sillad/src/dialer.rs:111-123 | pairing one more attempt with a race gives the race of all of them |
| `Routes.BestIsRaceResult` | libraries/sillad/src/dialer.rs:96-123 | a race succeeds iff some branch does, at the least such time; otherwise it hangs if a branch hangs and fails when the last has failed |
| `Routes.RaceResultIsUnique` | libraries/sillad/src/dialer.rs:111-123 | that reading leaves exactly one result |
| `Routes.RaceOfDialers` | binaries/geph5-client/src/get_dialer.rs:276-280 | pairwise reduction of a race is the race of all its branches |
| `Routes.FallbackAllIsInTurn` | binaries/geph5-client/src/get_dialer.rs:281-285 | pairwise reduction of fallbacks tries them in order |
| `Routes.FallbackTakesFirstSuccess` | libraries/sillad/src/dialer.rs:167-178 | each branch starts when the one before it failed, and the first that does not fail decides |
| `Routes.TimeoutIsPrompt` | libraries/sillad/src/dialer.rs:146-158 | a timeout always ends by its limit and otherwise changes nothing |
| `Routes.RouteLaws` | libraries/sillad/src/dialer.rs:127-194 | what connecting, layering, delaying and failing mean in terms of the network and of time |
| `Routes.DelayedRouteWaits` | libraries/sillad/src/dialer.rs:182-194 | a delayed route does nothing before its delay is over |
| `Routes.DialTakesTime` | libraries/sillad/src/dialer.rs:96-194 | no dialer finishes before it starts |
| `Routes.CompiledRouteIsCorrect` | binaries/geph5-client/src/get_dialer.rs:259-325 | the compiled dialer does what the route means, in every world and from every start time |
| `Routes.HappyEyeballsIsStaggeredRace` | libraries/sillad/src/tcp.rs:103-120 | the address list is a race of attempts a quarter of a second apart, and fails at once when empty |
| `Routes.OnlyWhitelistedHostsMatter` | binaries/geph5-client/src/get_dialer.rs:263-264 | the meaning of a route depends only on the hosts it whitelists |
| `Routes.CompiledDialerIsConfined` | binaries/geph5-client/src/get_dialer.rs:259-325 | the compiled dialer behaves alike in worlds that treat the whitelisted hosts alike |
| `Routes.LeavesAreWhitelisted` | binaries/geph5-client/src/get_dialer.rs:263-264 | the host of every Tcp leaf is whitelisted |
| `Routes.WhitelistedIsLeaf` | binaries/geph5-client/src/get_dialer.rs:263-264 | every whitelisted host is that of some Tcp leaf |
| `Routes.ReduceRace` | binaries/geph5-client/src/get_dialer.rs:276-280 | the loop of reduce yields the left-nested race, or a failing dialer |
| `Routes.ReduceFallback` | binaries/geph5-client/src/get_dialer.rs:281-285 | the loop of reduce yields the left-nested fallback, or a failing dialer |
| `Routes.Context.RouteToDialer` | binaries/geph5-client/src/get_dialer.rs:259-325 | returns the compiled dialer and adds exactly the route's hosts to the whitelist |
| `ObfuscationStack.StacksAgree` | binaries/geph5-exit/src/listen/b2e_process.rs:23-42 | for every protocol the client dials one TCP connection to the address and on it, layer by layer and cookie by cookie, what the exit listens for, with one ping per test and the fixed TLS domain |
| `ObfuscationStack.OuterLayerFirst` | binaries/geph5-exit/src/listen/b2e_process.rs:23-42 | the layers follow the protocol from the outside in, and none is left out |
| `ObfuscationStack.StackIdentifiesProtocol` | binaries/geph5-broker/src/routes.rs:158-178 | two protocols share a stack iff they differ only in the two spellings of sosistab3 |
| `HopHeaders.LowerMeans` | binaries/geph5-client/src/http_proxy/mod.rs:369 | comparison folds capital letters and nothing else |
| `HopHeaders.TrimMeans` | binaries/geph5-client/src/http_proxy/mod.rs:373 | trimming takes all white space off both ends and nothing else |
| `HopHeaders.SplitMeans` | binaries/geph5-client/src/http_proxy/mod.rs:372 | the parts joined with commas are the value, and no part has a comma |
| `HopHeaders.ScanValues` | binaries/geph5-client/src/http_proxy/mod.rs:367-382 | the last value with an opinion decides, and the default stands without one |
| `HopHeaders.CheckKeepAlive` | binaries/geph5-client/src/http_proxy/mod.rs:335-385 | Connection overrides Proxy-Connection, which overrides the version's default |
| `HopHeaders.ConnectionOverrules` | binaries/geph5-client/src/http_proxy/mod.rs:343-382 | if a Connection value has an opinion the Connection values decide alone, otherwise Proxy-Connection does if it is consulted |
| `HopHeaders.DecisionIsUnique` | binaries/geph5-client/src/http_proxy/mod.rs:335-385 | that rule leaves exactly one answer |
| `HopHeaders.KeepAliveMeetsTheRfc` | binaries/geph5-client/src/http_proxy/mod.rs:335-385 | the answer is that of section 6.3 of RFC 7230 iff no close option is overlooked or overruled by a later keep-alive, and no HTTP/1.0 keep-alive is honoured that should not be |
| `HopHeaders.CloseIsOverlooked` | binaries/geph5-client/src/http_proxy/mod.rs:368-380 | two messages that ask for close and are kept open |
| `HopHeaders.Headers.Remove` | binaries/geph5-client/src/http_proxy/mod.rs:420 | all values of the name go, whatever its case |
| `HopHeaders.Headers.Collect` | binaries/geph5-client/src/http_proxy/mod.rs:391-403 | collects the trimmed tokens, without keep-alive and without values that are just close |
| `HopHeaders.Headers.ClearHopHeaders` | binaries/geph5-client/src/http_proxy/mod.rs:387-439 | the nominated names and then the nine fixed ones are removed |
| `HopHeaders.ClearedIsDifference` | binaries/geph5-client/src/http_proxy/mod.rs:419-438 | exactly those names are removed and all other headers stay as they are |
| `HopHeaders.NineNames` | binaries/geph5-client/src/http_proxy/mod.rs:424-434 | the nine names that are always removed |
| `HopHeaders.ClearingMeetsTheRfc` | binaries/geph5-client/src/http_proxy/mod.rs:387-439 | this is what section 6.1 of RFC 7230 asks for iff there is no header named close that some value nominates by being exactly close while no value lists close among other options |
| `HopHeaders.StrayCloseExists` | binaries/geph5-client/src/http_proxy/mod.rs:393 | the exception has an instance |
| `HopHeaders.Headers.SetKeepAlive` | binaries/geph5-client/src/http_proxy/mod.rs:441-457 | states the persistence only where it differs from the version's default, and touches no other header (StatingKeepsOthers) |
| `HopHeaders.StatingKeepsOthers` | binaries/geph5-client/src/http_proxy/mod.rs:441-457 | all other headers stay, and Connection is set to keep-alive or close iff that is not the version's default |
| `HopHeaders.ForwardingKeepsOthers` | binaries/geph5-client/src/http_proxy/mod.rs:387-457 | a header that is neither one of the nine nor nominated is there after forwarding iff it was before, with the same values |
| `HopHeaders.PersistenceRoundTrip` | binaries/geph5-client/src/http_proxy/mod.rs:335-457 | checking a cleared message after setting its persistence returns what was set |
| `HopHeaders.ForwardedMeansWhatWasSet` | binaries/geph5-client/src/http_proxy/mod.rs:387-457 | a recipient that follows section 6.3 of RFC 7230 and honours keep-alive reads the forwarded message as it was set |
| `HopHeaders.ForwardingIsIdempotent` | binaries/geph5-client/src/http_proxy/mod.rs:387-457 | forwarding a message a second time changes nothing more |
| `Traffic.TraffCount.constructor` | binaries/geph5-client/src/traffcount.rs:31-38 | no bins, and the window starts at creation |
| `Traffic.TraffCount.Incr` | binaries/geph5-client/src/traffcount.rs:41-52 | after any run the bins are the last max(1, history) entries of the per-second sums, the first increment being charged to second zero |
| `Traffic.TraffCount.EnsureBinsUpdated` | binaries/geph5-client/src/traffcount.rs:55-82 | missing seconds become empty bins and the window moves on by whole seconds |
| `Traffic.TraffCount.AddBins` | binaries/geph5-client/src/traffcount.rs:70-78 | the oldest bin goes when the queue is full |
| `Traffic.TraffCount.SpeedHistory` | binaries/geph5-client/src/traffcount.rs:85-88 | the history is the sums of the last seconds, oldest first |
| `Traffic.SumsGrow` | binaries/geph5-client/src/traffcount.rs:41-52 | one more increment pads the reference with empty seconds and adds to the last one |
| `Traffic.SecondsAreWhole` | binaries/geph5-client/src/traffcount.rs:55-58 | increments are charged to the whole second since creation, the first to second zero |
| `Traffic.SecondsAddUp` | binaries/geph5-client/src/traffcount.rs:41-52 | the seconds add up to all that was ever counted |

## Left out

- The bandwidth estimate, latency measurement, ping timers and liveness time-outs of picomux: the target is arbitrary within its clamp, and time-outs only stop a run early.
- Back-pressure of the outgoing queue (`Outgoing::send` waiting for fewer than ten frames): the model allows more interleavings than the code.
- End of file, read errors and ping time-outs, which also end the read loop: `DeliveryNeverFails` is about the dispatch of frames that have been read.
- A scheduler that never runs a task that could run: progress is a bound on the actions taken and a statement about where they end.
- `poll_flush` and `poll_close` of the sosistab3 pipe: flushing between a pending write and its completion is outside the writer's contract.
- PollRead: the bound of a lower read by the caller's buffer is not used, so the result holds for longer answers as well.
- The timestamp of a hello is compared with a clock read before the hello arrives, so replays are only kept one expiry apart (`ReplaysAreSpaced`), not excluded.
- Which pipe wins a race when two attempts finish at the same instant, and the error value of a failed dial.
- Dial: connecting and negotiating take arbitrary time, but their outcome depends only on the address or layer and the starting time.
- Real cryptography, the RSA blind signatures of mizaru2 and TLS: parameters or absent.
- Trim: strips the white space that can occur in readable header values, not all of Unicode's.
- Rounding of the floating-point traffic sums.
- `ClientExitCryptPipe` and UDP length framing: the same shape as the record layer, only easier.
- Broker database, payments, news, statistics, HTTP and lambda transports, GUI, PAC, TUN, packet capture, rate limiting and address lists: input and output, foreign services, user interface or data tables.
