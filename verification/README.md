# httproxy: protocol and codec proofs

httproxy carries a TCP byte stream over ordinary HTTP requests. The client seals what it reads into
numbered, padded, encrypted frames and sends them in concurrent POST bodies; the server puts the frames
back in order and writes them upstream. In the other direction the server seals the upstream bytes into
response bodies of limited size, and client and server rotate from one body to the next. Around this sit a
session store, a cache of access tokens, an HTTP/3 upstream (MASQUE), an index of bypassed domains and some
rewriting of request heads.

This project models that logic in Dafny and proves what it promises. `dafny verify dfyconfig.toml` checks
all of it. One module per file:

- `Bytes`, `Sources`, `Incremental`: byte strings, polling a source, decoding a growing buffer.
- `FrameCodec`, `Shaper`, `BodyReader`: one frame on the wire, the traffic shaper, the reader of request bodies.
- `ClientUpload`, `Reorder`, `UploadActor`, `Upload`: the upload direction, from what the client reads to the bytes sent upstream.
- `UploadFlow`, `UploadLimits`, `UploadSealing`, `UploadPatience`: its flow control, and which of the server's limits a client can hit.
- `Tunnel`, `TunnelActor`, `Rotation`, `DownloadClient`, `Download`: the download direction, from the shaper's slot to the
  bytes written to the local socket. `Vectored` is the partial-write loop both directions need.
- `Lifetime`, `Token`: sessions, stream ids, access tokens and their cache.
- `Varint`, `Masque`: HTTP/3 integers and DATA framing.
- `DomainIndex`, `HeadRewrite`, `CivilTime`: three self-contained algorithms.

Objects that the program updates in place are classes whose methods are proved against functions on values;
concurrent tasks are steps of a state machine, taken in any order. What comes from outside is a parameter or an
arbitrary choice: the bytes a socket delivers and how it cuts them, whether a write is partial or fails, timers, nonces, the
amount of padding, the clock. The only facts used about foreign code are laws stated as predicates:
`FrameCodec.SealsAndOpens` and `FrameCodec.EncodesAsText` for AES-GCM and base-122 (opening undoes sealing, sealing adds 28
bytes, the text is at most a sixth and 16 bytes longer and holds no quote and no newline), `Token.IsBase64` for base-64, and a
parameter that says which strings are UTF-8. Sequence numbers are unbounded in the actors; where a number is put into a frame it must
be below 2^64.

## Where the code does less than one might expect

- With at most the documented two mebibytes in flight the flow control of uploads protects the server's limit on buffered
  bytes (`UploadLimits.ByteLimitNever`), but neither its limit of 8192 buffered frames nor its limit of 256 waiting requests. A run
  without any failed request hits the limit on frames if and only if 8194 of the shortest frames fit in flight and there are three or
  more requests at a time, or two and one body can hold 8193 of them (`UploadLimits.FrameLimitExactlyWhen`); the default budget and number
  of requests are such a case (`UploadSealing.DefaultTrips`). With few requests such a run needs a flush timer that is ready in the very
  poll that arms it, over and over, since a body must then hold many short frames. With a timer that is not, every frame of a body
  after its first is full, but for the last of the stream (`UploadPatience.TakeBatch`), and the limit on frames can only be hit with
  thousands of requests at a time (`UploadPatience.ThousandsNeeded`; `UploadPatience.BinaryPatience` gives the exact numbers). A client
  hits the limit on waiting requests, whatever the timer, if and only if at least 258 requests run at a time and 258 of the shortest
  frames fit in flight (`UploadLimits.EosLimitExactlyWhen`); it accepts any number of requests. `UploadSealing.BinaryLimits` puts both
  in numbers.
- A Continue that comes while the shaper is parked, and is abandoned, leaves the tunnel active with no segment, and every later Continue is
  answered with nothing. That is the only way to get there (`Tunnel.StallsExactlyWhen`, `Tunnel.StalledStays`), and it can happen exactly when there
  is a limit and the stream reaches it (`Tunnel.CanStallExactlyWhen`). A second open Continue in the queue ends the tunnel
  (`Tunnel.QueuedContinues` says exactly when).
- The check of a session's age and the registration of a stream are not one atomic step. If the check passes within the session's lifetime and the
  janitor then runs past its end, a used stream id can be registered again (`Lifetime.RegisterAgain` says exactly when,
  `Lifetime.CheckThenSweepRegistersTwice` is such a run); otherwise it cannot (`Lifetime.Live`).
- `MasqueRecv` hands over those bytes of a frame of another type that were read together with its header
  (`Masque.OtherFramesLeak`). Every way of reading a stream gives its data if and only if no frame of another type in it has a byte of body:
  then no poll goes wrong (`Masque.MasqueRecv.Poll`), and otherwise reading goes wrong when everything arrives at once (`Masque.ReceiveBuffered`).
- The domain index confuses a NUL inside a label with the separator of its keys (`DomainIndex.NulConfuses`); a rule file can hold one. A name
  that a rule covers is always found, but a rule may find names it does not cover. It is right on all names without NUL if and
  only if it has no NUL or its last label begins with one (`DomainIndex.PlainNamesExactlyWhen`), and on all names if and only if it is a
  single label without a NUL after its first byte (`DomainIndex.AllNamesExactlyWhen`).
- A vectored write of frames that end in an empty one fails with a zero-length write although nothing is left to send
  (`Vectored.WriteVectoredAll`); the sealer never makes empty frames.
- A QUIC integer of 2^62 or more loses its two high bits, and a prefixed integer that exceeds its prefix by 2^63 or more cannot be read back
  (`Varint.VarintRoundTrip`, `Varint.IntRoundTrip`).

## Model

| member | source | states |
|---|---|---|
| `FrameCodec.FrameRoundTrip` | src/shaper/mod.rs:313-477 | In both encodings a sealed frame followed by any bytes decodes to its number and data, leaving exactly those bytes |
| `FrameCodec.FramePrefixIsIncomplete` | src/shaper/mod.rs:399-477 | No strict first part of a frame decodes or is rejected: the decoder asks for more |
| `FrameCodec.FrameLength` | src/shaper/mod.rs:41-46 | Every frame within the limit is longer than its data and at most the advertised maximum |
| `FrameCodec.EncodeFrameCorrect` | src/shaper/mod.rs:290-370 | Encoding refuses exactly the data over the limit of its encoding; otherwise the frame, whatever the padding drawn, decodes to number and data |
| `FrameCodec.DecodeFrameExtend` | src/shaper/mod.rs:399-477 | Bytes that arrive later never change a decoded frame and never repair a rejected buffer |
| `FrameCodec.FrameDecoderIsIncremental` | src/shaper/mod.rs:399-477 | The frame decoder makes progress and is stable, so the theory of incremental decoding applies to it |
| `Incremental.DecodeAllSplit` | src/shaper/mod.rs:399-477 | A buffer followed by more input holds what it held, continued from its incomplete rest |
| `Incremental.ChunkingDoesNotMatter` | src/server/stream.rs:52-122 | Any two ways to cut the same bytes yield the same frames, the same rest and the same first rejection |
| `Incremental.DecodeConcat` | src/shaper/mod.rs:399-477 | Strings that each hold one frame hold, one after another, exactly those frames and nothing else |
| `BodyReader.GuardUnreachable` | src/server/stream.rs:52-122 | With the limit of 18781 bytes, in both encodings, a buffer over the limit always decodes or is rejected, so the size guard is never reached |
| `BodyReader.FrameDecoder.PollNext` | src/server/stream.rs:52-122 | Every poll keeps the frames handed out and the buffer equal to what all bytes read so far decode to, and each reply says truthfully why it was given |
| `BodyReader.Drain` | src/server/handlers.rs:345-359 | Emptying a reader yields the frames and the greatest number that the bytes of the body mean, whatever the chunks and waits; of a body that breaks off, those of the bytes read before |
| `BodyReader.ReadBody` | src/server/handlers.rs:153-164 | The outcome of reading a body depends only on its bytes and on whether it breaks off: its frames, or the first rejection, or trailing data, or the failure to read on; the frames handed on before are those of the bytes read |
| `Shaper.SealerIsFaithful` | src/shaper/mod.rs:601-651 | All that is sealed within the limit is one frame to the decoder of that direction and fits the maximum length |
| `Shaper.ShapedStreamDecodes` | src/shaper/mod.rs:601-714 | A shaped stream decodes to exactly its payloads under consecutive numbers, with nothing left over |
| `Shaper.ShapedBytesDecode` | src/shaper/mod.rs:41-46 | The same for the actual sealer and decoder, with the length bound of every frame |
| `Shaper.ResolveMeaning` | src/shaper/mod.rs:150-170 | However the stages of a configuration are ordered, a packet is under the rule of a stage that has not ended and of which none such ends earlier, and under the default once all have ended |
| `Shaper.ResolveValid` | src/shaper/mod.rs:111-170 | A configuration that passes validation resolves to one whose padding ranges are in order |
| `Shaper.TrafficShaper.ResolvePadding` | src/shaper/mod.rs:571-599 | The moving stage index always names the first stage not yet ended; padding is drawn from that stage's range, cut to the room left, and is zero at or above the threshold |
| `Shaper.TrafficShaper.SealInto` | src/shaper/mod.rs:601-651 | One non-empty frame's worth of the buffer is sealed under the next number; payloads and buffer together stay what was read |
| `Shaper.TrafficShaper.PollFillAndSeal` | src/shaper/mod.rs:654-715 | Whatever the reader and the timer do, nothing read is lost, at most one frame is put out, and the end is reported only when all has been sealed; a frame that is not full is the last of the stream or was sealed by the timer |
| `Shaper.Shape` | src/shaper/mod.rs:531-715 | Over any number of polls the output is the sealed form of consecutively numbered, non-empty payloads, each padded by the rule for its packet, that with the buffer are a first part of the stream, and all of it at the end |
| `Shaper.ShapeDecodes` | src/shaper/mod.rs:531-715 | Seen from the receiver: the output decodes, without a rest, to consecutively numbered non-empty frames whose data is a first part of the stream, and the whole stream once the end is reported |
| `Reorder.ArriveAllReflects` | src/server/actor/upload.rs:107-179 | After any frames the next number is the least not received, the output is the frames below it and the buffer those above it |
| `Reorder.ArrivalOrderDoesNotMatter` | src/server/actor/upload.rs:107-179 | Two sequences with the same frames, in any order and with any repeats, leave the same output, next number and buffer |
| `Reorder.ReleasesPrefix` | src/server/actor/upload.rs:107-179 | If every frame carries the payload of its number, the output is a first part of the payloads |
| `Reorder.ReleaseAfterGather` | src/server/actor/upload.rs:119-141 | Releasing one bounded run at a time comes to the same as releasing everything at once |
| `UploadActor.GatherRun` | src/server/actor/upload.rs:119-132 | The run taken for one vectored write is the longest consecutive one within the limit, and the byte count stays exact |
| `UploadActor.WriteRun` | src/server/upstream.rs:84-125 | A single frame is written as a whole and several by the vectored loop; on success all of the run is sent, and on failure some first part of it; on a live connection a run without empty frames does not fail |
| `UploadActor.WriteInOrder` | src/server/actor/upload.rs:115-144 | However writes fail, the bytes sent lie between the frames known to be written and what an ideal buffer releases; on success they are equal |
| `UploadActor.GrantWaiters` | src/server/actor/upload.rs:145-154 | Removal by swapping grants exactly the waiters whose frames are all written and loses none |
| `UploadActor.Actor.HandleFrame` | src/server/actor/upload.rs:107-179 | The actor stops exactly on a failed write or when a new frame ahead of its turn is over a limit; otherwise buffer, counts, output and waiters keep step with the ideal buffer |
| `UploadActor.Actor.HandleEos` | src/server/actor/upload.rs:181-212 | A marker is granted at once, refused when too many wait, or queued, and every taken marker is accounted for |
| `UploadActor.Actor.ShutdownAndDrain` | src/server/actor/upload.rs:214-226 | Shutting down keeps all waiters to be answered and everything written in order |
| `UploadActor.Actor.AckAllWaiters` | src/server/actor/upload.rs:228-244 | Whoever still waits is refused exactly once |
| `UploadActor.Actor.RunActor` | src/server/actor/upload.rs:67-105 | However a run ends, the frames that arrived are those of the commands taken, in order, but for at most the last; the bytes sent are a first part of what an ideal buffer releases for them; a grant answers a marker that was taken and is for written frames only; every marker taken gets exactly one reply. A completed run has sent all that the ideal buffer releases and granted every marker below it; on a live connection only a limit that is really exceeded, or a command to shut down, keeps a run of non-empty frames from completing |
| `ClientUpload.EncodeInitialPayload` | src/client/utils.rs:36-78 | Early data is sealed into consecutive non-empty frames from number zero; payloads and remainder together are the initial payload |
| `ClientUpload.EarlyDataDecodes` | src/client/utils.rs:36-78 | The server's decoder finds in the early data consecutive frames from number zero, as many as the number returned says; their data and the remainder are the initial payload |
| `Upload.ClientSends` | src/client/handshake.rs:70-120 | Early data and shaped frames together are non-empty frames numbered from zero, one each to the server's decoder, whose data is a first part of what the client reads, and all of it when the shaper reports the end |
| `Upload.ServerReceives` | src/server/handlers.rs:337-408 | For bodies that hold parts of what was sent, read at the same time, with their commands interleaved in any way, the actor sends a first part of the payloads, and confirms a request only if its body was complete and all up to its last frame has been sent. On a live connection it takes all commands unless there are more frames, bytes or requests than it has room for; and when it has taken all and every frame has arrived, everything is sent and every complete request granted |
| `Upload.UploadAll` | src/client/handshake.rs:70-120 | From end to end: whatever bodies are made of the frames, and however they are cut, broken off, repeated and interleaved, what reaches the upstream is a first part of what the client read; when the bodies arrive whole and hold every frame, every request has its turns and the connection is live, it is all of it and every request is confirmed, unless there is more than the server has room for |
| `UploadFlow.FillBatch` | src/client/actor/upload_loop.rs:123-137 | The filling loop builds a batch it may build and stops only at the limit or when nothing is ready |
| `UploadFlow.BatchFitsExactlyWhen` | src/client/actor/upload_loop.rs:60-65 | Every batch fits in flight, so that its permit is exactly its length, if and only if the longest frame does |
| `UploadFlow.HandleIsActor` | src/server/actor/upload.rs:107-179 | The server step of the joint model is what the actor does: it gives up on exactly the frames over a limit and otherwise leaves the actor's buffer |
| `UploadFlow.BytesFit` | src/server/actor/upload.rs:160-175 | For any number of requests at a time everything buffered lies in bodies not yet answered, so one more frame never passes the byte limit |
| `UploadFlow.FramesNeedRoom` | src/server/actor/upload.rs:160-175 | The frame limit is reached only if enough of the shortest frames may be in flight, and with two requests only if one body can hold them |
| `UploadFlow.EosNeedsRoom` | src/server/actor/upload.rs:181-212 | The limit on waiting requests is reached only with 258 requests at a time, each holding a frame of its own |
| `UploadFlow.NextKeeps` | src/client/actor/upload_loop.rs:126-174 | Every launch, delivery, end-of-body marker and answer keeps the permits, the buffer and the requests in balance, for any number of requests at a time |
| `UploadFlow.UploadsFlow` | src/server/handlers.rs:337-408 | In every run the byte limit is never hit, the limits on frames and waiting requests only where there is room to, and the output is the first frames in order |
| `UploadFlow.DrainedMeansWritten` | src/client/actor/upload_loop.rs:193-206 | When every request has been answered, every frame sealed has been written upstream in order and all permits and slots are back |
| `UploadFlow.UploadNeverStuck` | src/client/actor/upload_loop.rs:193-206 | While a request is unanswered some delivery, marker or answer can happen |
| `UploadFlow.UploadsDrain` | src/client/actor/upload_loop.rs:193-206 | A client that launches nothing more comes to an end in a bounded number of steps, and then everything sealed has been written, unless the server gave up over a limit |
| `UploadLimits.FrameLimitExactlyWhen` | src/server/actor/upload.rs:160-175 | For every number of requests at a time, and a flush timer that may fire in the poll that arms it, there is a run without failures in which the frame limit stops the upload if and only if enough of the shortest frames, summed number by number, fit in flight, and with two requests in one body |
| `UploadLimits.EosLimitExactlyWhen` | src/server/actor/upload.rs:181-212 | There is a run without failures in which the limit on waiting requests stops the upload if and only if 258 requests may run at a time and 258 of the shortest frames fit in flight |
| `UploadLimits.ByteLimitNever` | src/server/actor/upload.rs:160-175 | In no run without failures does the byte limit stop the upload |
| `UploadSealing.ShapedCanSeal` | src/shaper/mod.rs:601-651 | Every frame the shaper puts out is among those the flow model lets the client seal, under its number and with its length |
| `UploadSealing.CfgSupported` | src/client/mod.rs:31-47 | Every configuration that the client accepts and that keeps to the documented two mebibytes in flight, in either encoding and with any padding rules and number of requests, meets what the flow theorems ask for |
| `UploadSealing.ShortestFrame` | src/shaper/mod.rs:313-370 | The shortest frame under each number follows from the padding rule: exactly forty bytes over the least data and padding in the binary encoding, at least fifty in the text one |
| `UploadSealing.BinaryLimits` | src/client/mod.rs:31-47 | For the binary encoding with one padding rule, in numbers, exactly which budgets and numbers of requests let which limit be hit |
| `UploadSealing.DefaultTrips` | src/client/mod.rs:31-40 | With the default budget and number of requests, a padding range from zero and such a timer, the frame limit can be hit, and the limit on waiting requests cannot |
| `UploadPatience.TakeBatch` | src/client/actor/upload_loop.rs:103-137 | When the timer does not fire in the poll that arms it, every frame of a batch after the first is full, except the last of the stream; nothing read is lost |
| `UploadPatience.PatientNeedsRoom` | src/server/actor/upload.rs:160-175 | If bodies are made of such batches, the frame limit is hit only if 8194 frames fit in flight of which no more are short than there are requests at a time, and one |
| `UploadPatience.PatientLimitExactlyWhen` | src/server/actor/upload.rs:160-175 | For the same lengths under every number and long full frames that condition is exact |
| `UploadPatience.ThousandsNeeded` | src/client/mod.rs:31-47 | In either encoding, with any padding rules and budget, that takes at least 8000 requests at a time |
| `UploadPatience.BinaryPatience` | src/client/mod.rs:31-47 | For the binary encoding with one padding rule, in numbers, exactly which budgets and numbers of requests let it be hit |
| `Vectored.Advance` | src/server/upstream.rs:111-122 | The position moves forward by exactly the bytes written, over frame borders |
| `Vectored.WriteVectoredAll` | src/server/upstream.rs:91-125 | Whatever the partial writes, a first part of the frames' bytes is sent, all of it on success; it succeeds on a live socket if no frame is empty, and for one batch exactly when the last is not |
| `Tunnel.PollKeeps` | src/server/actor/tunnel.rs:104-138 | Polling a segment adds at most the next frame and keeps the tunnel invariant |
| `Tunnel.DropKeeps` | src/server/actor/tunnel.rs:82-99 | Dropping a segment keeps the invariant, and its message is never lost while the actor is there |
| `Tunnel.ServeKeeps` | src/server/actor/tunnel.rs:320-341 | Serving any queue of replies, open or not, keeps the invariant |
| `Tunnel.ContinueKeeps` | src/server/actor/tunnel.rs:343-370 | So does a Continue in any phase |
| `Tunnel.SingleOwner` | src/server/actor/tunnel.rs:235-311 | In every run live segments and queued messages are one when a segment is active and none otherwise, the shaper is in at most one place right after what was put out, and all segments together put out a first part of its frames without loss or repeat |
| `Tunnel.RotationAgrees` | src/client/actor/download_loop.rs:261-273 | In every run the client of a wholly received segment wants another exactly when the server parks the shaper |
| `Tunnel.StallsExactlyWhen` | src/server/actor/tunnel.rs:346-350 | A tunnel becomes stalled exactly by a Continue that comes while the shaper is parked and is no longer waited for |
| `Tunnel.CanStallExactlyWhen` | src/server/actor/tunnel.rs:235-311 | Some run stalls the tunnel if and only if there is a limit and the stream is not empty and reaches it |
| `Tunnel.StalledStays` | src/server/actor/tunnel.rs:343-370 | A stalled tunnel stays so and answers every Continue with nothing until it is stopped |
| `Tunnel.QueuedContinues` | src/server/actor/tunnel.rs:261-274 | When a segment is dropped the tunnel goes on exactly if the shaper is parked and at most one queued reply is still waited for |
| `TunnelActor.Actor.Take` | src/server/actor/tunnel.rs:222-233 | A segment is created from the slot, or nothing when it is empty |
| `TunnelActor.Actor.PollNext` | src/server/actor/tunnel.rs:104-138 | A poll does the step of the specification, and the body carries exactly the items returned |
| `TunnelActor.Actor.Release` | src/server/actor/tunnel.rs:82-99 | Dropping a live segment keeps the invariant and all that was put out; unless the tunnel is closed its message is queued and the slot is filled exactly if the segment was to be paused |
| `TunnelActor.Actor.ServePendingContinue` | src/server/actor/tunnel.rs:320-341 | The loop over queued replies does what the specification says of the whole queue |
| `TunnelActor.Actor.SegmentDone` | src/server/actor/tunnel.rs:261-274 | The arm of the main loop for a dropped segment does its step |
| `TunnelActor.Actor.DispatchContinue` | src/server/actor/tunnel.rs:343-370 | The dispatch of a Continue does its step |
| `TunnelActor.Actor.CleanUp` | src/server/actor/tunnel.rs:372-389 | Afterwards the invariant still holds, no shaper is parked, and no segment puts out anything more, whatever is polled |
| `TunnelActor.RunTunnel` | src/server/actor/tunnel.rs:235-311 | The actor under any schedule of events goes through the states of a run of the specification |
| `Rotation.DoKeeps` | src/server/actor/tunnel.rs:261-370 | Every fault-free move of server or client keeps the joint invariant: one request outstanding, earlier segments parked, an unparked last segment complete |
| `Rotation.ReceivedIsPrefix` | src/client/actor/download_loop.rs:253-274 | The client has always received a first part of the shaper's output, and all of it when it stops |
| `Rotation.NeverStuck` | src/client/actor/download_loop.rs:335-387 | Until the client is done, some move can happen |
| `Rotation.MovesProgress` | src/client/actor/download_loop.rs:253-387 | Every move decreases a well-founded measure |
| `Rotation.EveryHistoryFinishes` | src/client/actor/download_loop.rs:223-251 | Whatever moves are taken, from every state of the invariant, the client comes to its end |
| `Rotation.RotationIsComplete` | src/client/actor/download_loop.rs:223-387 | In every history of moves, with or without asking ahead, the client stops having received the whole stream |
| `Rotation.Rotate` | src/client/actor/download_loop.rs:223-387 | The same as a program that takes any move that can happen until the client is done: it ends, with the whole stream received |
| `DownloadClient.Consume` | src/client/actor/download_loop.rs:163-178 | Exactly the first bytes leave the queue and the count stays right |
| `DownloadClient.Flush` | src/client/actor/download_loop.rs:125-161 | Bytes only move from the queue to the socket, in order; on a live socket a queue without empty pieces is emptied |
| `DownloadClient.DecodeQueued` | src/client/actor/download_loop.rs:88-112 | Decoding queues every further frame as long as the numbers are consecutive, and stops only at a bad frame or a wrong number |
| `DownloadClient.Downloader.Ingest` | src/client/actor/download_loop.rs:68-113 | A chunk adds its frames to the queue; what was fed, taken and left over stays consistent |
| `DownloadClient.Downloader.DrainResponse` | src/client/actor/download_loop.rs:276-333 | The frames accepted are a first part of those of the response, and all of them, written, when it succeeds; an incomplete tail is dropped |
| `DownloadClient.Downloader.Run` | src/client/actor/download_loop.rs:223-274 | The client ends well only after responses that reached the limit and one that did not, having written all their frames; without faults it does so |
| `Download.DownloadAll` | src/client/actor/download_loop.rs:181-333 | For responses that are parts of segment bodies in any order, cut, broken off or repeated, what is written locally is a first part of the upstream payloads; for the whole bodies of a completed rotation it is all of them |
| `Download.DownloadStream` | src/client/actor/download_loop.rs:181-387 | From end to end without faults: the server shapes the upstream stream, both sides rotate in any order of moves, bodies arrive in any chunks; what is written locally is all that was shaped if the local socket works, and the whole stream once the shaper reports its end |
| `Download.DownloadFaulty` | src/server/actor/tunnel.rs:235-311 | From end to end with faults: whatever requests are abandoned or come too early, whenever the actor stops, and however bodies are cut, broken off, repeated or reordered, what is written locally is a first part of the upstream stream |
| `Download.ShapedFramesHold` | src/shaper/mod.rs:601-714 | The shaper's frames are what the download proofs ask for: one frame each to the client's decoder, none empty |
| `Download.RotationCompletes` | src/server/actor/tunnel.rs:104-138 | Where fault-free rotation ends, the bodies are those of a completed rotation |
| `Lifetime.Registry.Register` | src/server/stream_registry.rs:33-41 | Registration succeeds exactly for an unknown id and records it as active |
| `Lifetime.Registry.MarkConsumed` | src/server/stream_registry.rs:43-49 | A known entry is marked and nothing else changes |
| `Lifetime.Registry.Check` | src/server/stream_registry.rs:51-59 | The answer tells unknown, active and consumed apart |
| `Lifetime.Registry.RemoveConsumedBefore` | src/server/stream_registry.rs:61-72 | Exactly the consumed entries older than the cutoff go, and they are counted |
| `Lifetime.PruneExpiredMasters` | src/server/janitor.rs:33-52 | Exactly the masters that have reached the expiry age go, and they are counted |
| `Lifetime.Server.CheckSession` | src/server/handlers.rs:260-274 | The check passes exactly for a known session within its lifetime, and drops the master of an expired one |
| `Lifetime.Server.RegisterStream` | src/server/handlers.rs:289-292 | A stream ever registered for the session is refused unless the janitor has run past the session's lifetime, within which the check was made |
| `Lifetime.Server.Sweep` | src/server/janitor.rs:11-30 | An entry that the janitor prunes belongs only to sessions past their expiry, whose masters are gone |
| `Lifetime.Live` | src/server/handlers.rs:260-292 | Over every life of the server, with requests on several threads, a stream is registered a second time for a session only if the janitor ran past the session's lifetime after the check |
| `Lifetime.RegisterAgain` | src/server/handlers.rs:260-292 | A used stream whose check passed is registered again if and only if a round of the janitor past its entry's lifetime comes between |
| `Lifetime.CheckThenSweepRegistersTwice` | src/server/handlers.rs:260-292 | That exception is reached from the start of a server |
| `Token.TokenRoundTrip` | src/server/token.rs:28-90 | An issued token opens to its claims exactly when the subject has at most 729 bytes and the expiry is to come, and is refused otherwise |
| `Token.Validator.Validate` | src/server/handlers.rs:619-638 | With or without the cache the answer is that of opening the token now |
| `Token.Serve` | src/server/handlers.rs:601-638 | Over every run of requests, waits and evictions the answers are those of a server without a cache |
| `Varint.VarintRoundTrip` | src/warp/h3.rs:25-81 | Any 64-bit value is read back, whatever follows, if and only if it is below 2^62, and otherwise its low 62 bits are |
| `Varint.VarintPrefixRejected` | src/warp/h3.rs:69-81 | No strict first part of an encoding is accepted |
| `Varint.VarintShortest` | src/warp/h3.rs:25-81 | What is accepted is below 2^62 and would not be put into more bytes |
| `Varint.ReadVarint` | src/warp/h3.rs:69-81 | The reading loop computes the big-endian value of its bytes without the two length bits |
| `Varint.PutVarintSlice` | src/warp/h3.rs:47-66 | Writing arm by arm into a slice gives the bytes that the appending writer gives and leaves the rest alone |
| `Varint.FrameHeaderRoundTrip` | src/warp/h3.rs:84-88 | Type and length of a frame are read back whatever follows |
| `Varint.FrameHeaderPrefixRejected` | src/warp/h3.rs:84-88 | An incomplete frame header is not accepted |
| `Varint.IntRoundTrip` | src/warp/h3.rs:90-126 | A prefixed integer is read back, whatever follows, if and only if it exceeds its prefix by less than 2^63; otherwise it is refused |
| `Varint.IntPrefixRejected` | src/warp/h3.rs:105-126 | No strict first part of an encoding is accepted |
| `Varint.WriteInt` | src/warp/h3.rs:90-103 | The writing loop appends the groups of seven bits |
| `Varint.ReadInt` | src/warp/h3.rs:105-126 | The reading loop computes the value of the groups with its two ways to give up |
| `Masque.DeframeAppend` | src/warp/masque.rs:406-493 | After a stream that stops between frames the next one is read on its own |
| `Masque.MasqueSend.PollWrite` | src/warp/masque.rs:292-338 | Whatever the partial writes, the bytes reported as taken are appended to the data carried, and the stream stays one of DATA frames |
| `Masque.MasqueSend.WriteData` | src/warp/masque.rs:266-281 | One whole frame is added; after a failure the stream still carries what it carried and a first part of the data |
| `Masque.MasqueSend.WriteFrames` | src/warp/masque.rs:245-264 | However the pieces are grouped, exactly their bytes are added; after a failure the stream carries a first part of them |
| `Masque.MasqueRecv.Poll` | src/warp/masque.rs:406-493 | On a stream in which no frame of another type has a body, the bytes handed over are the data of the DATA frames in order; a clean end is reported only at a frame boundary after all of it, a truncated one only inside a frame. When everything was read beforehand the bodies of all frames are handed over |
| `Masque.MasqueRecv.TakeHeader` | src/warp/masque.rs:457-470 | The bytes of the frame at hand become pending, the rest is awaited or skipped; data is mixed up exactly when they belong to a frame of another type |
| `Masque.SentMeansAccepted` | src/warp/masque.rs:292-338 | What is on the stream carries exactly what was accepted, also in the middle of a header |
| `Masque.Relay` | src/warp/masque.rs:292-493 | For any writes, partial writes and buffer sizes the receiver gets a first part of what the sender accepted, and all of it when an end is reported, which is clean exactly if the sender stopped between frames |
| `Masque.RelayFrames` | src/warp/masque.rs:245-281 | The same for lists of pieces written by `write_frames` until a write fails |
| `Masque.RawIsData` | src/warp/masque.rs:406-493 | The bodies of all frames are the data if and only if no frame of another type has a body |
| `Masque.ReceiveBuffered` | src/warp/masque.rs:457-470 | When a whole stream arrives with the response, what is handed over by the end is its data if and only if no frame of another type in it has a body |
| `Masque.OtherFramesLeak` | src/warp/masque.rs:457-470 | A frame of another type read together with its header is handed over by the first poll, although the stream carries no data |
| `DomainIndex.UnkeyKey` | src/bypass/mod.rs:29-57 | A key gives back its name in lower case |
| `DomainIndex.KeysAgree` | src/bypass/mod.rs:29-57 | Two names without NUL have the same key if and only if they differ only in case |
| `DomainIndex.DomainKey` | src/bypass/mod.rs:29-57 | The loop from the end builds the key of the trimmed name, or nothing for an empty one |
| `DomainIndex.Matches` | src/bypass/mod.rs:78-110 | The loop finds exactly whether the name from one of its labels on has a key in the index |
| `DomainIndex.Lookup` | src/bypass/mod.rs:172-211 | For all rules and names, a name that some rule is, or that ends with a dot and the rule, case and outer dots apart, is found; a name without NUL is found if and only if the plain form of some rule covers it, and if the rules have no NUL, if and only if some rule does |
| `DomainIndex.FindsPlain` | src/bypass/mod.rs:78-110 | A rule finds a name without NUL if and only if the name that its key stands for covers it |
| `DomainIndex.PlainNamesExactlyWhen` | src/bypass/mod.rs:29-110 | A rule finds exactly the names without NUL that it covers if and only if it has no NUL or its last label begins with one |
| `DomainIndex.AllNamesExactlyWhen` | src/bypass/mod.rs:29-110 | A rule finds exactly the names it covers, those with NULs included, if and only if it is a single label without a NUL after its first byte |
| `DomainIndex.NulConfuses` | src/bypass/mod.rs:29-57 | With a NUL a rule can match a name it does not cover |
| `HeadRewrite.DroppedMeaning` | src/client/proxy.rs:192-235 | A line goes if and only if it is a proxy-only header or belongs to its folded continuation |
| `HeadRewrite.StrippedIdempotent` | src/client/proxy.rs:202-250 | Stripping a second time changes nothing |
| `HeadRewrite.Buffer.CollectKept` | src/client/proxy.rs:210-234 | The loop keeps the request line, the lines that stay and an unterminated tail |
| `HeadRewrite.Buffer.StripProxyHeaders` | src/client/proxy.rs:202-250 | The head is replaced by its stripped form, everything after it stays, and the length returned is that of the new head |
| `HeadRewrite.WriteRequestLine` | src/client/proxy.rs:253-270 | The parts written one by one are the request line |
| `HeadRewrite.Buffer.RewriteRequestLine` | src/client/proxy.rs:137-187 | Both the shrinking and the growing branch replace the first line and leave every later byte; each error leaves the buffer untouched |
| `CivilTime.DayCountSteps` | src/warp/register.rs:243-264 | The reference day count is zero on the first of January 1970 and goes up by one from each date to the next |
| `CivilTime.CivilRoundTrip` | src/warp/register.rs:243-264 | For every input the fields are a date of the calendar and a time of day, and recomputing the seconds gives back the input |
| `CivilTime.CivilDateOf` | src/warp/register.rs:243-264 | Every date of the calendar is the one found for its day number, and the next day number gives the next day |

## Left out

- Key exchange, AES-GCM, base-122, base-64, UUIDs and the finite-state-transducer, cache and map libraries: foreign code, represented by laws, functions, sets and maps.
- TLS, QUIC, HTTP, DNS, TCP and SOCKS5 connections and their time-outs: input and output; a time-out is a step that may happen at any time.
- Jitter, timer durations and the choice of padding: any value in range.
- QPACK field sections and the table of status codes: the table in the code differs from Appendix A of RFC 9204.
- The zero-copy hand-over of buffers, the buffer pool and in-place decryption: buffers are values here, so aliasing is not captured.
- Liveness of rotation with abandoned or several open Continue requests: the code does not provide it; the members named above say what happens instead.
- BodyReader.FrameDecoder.PollNext: after a rejected frame the model leaves the buffer as it was, while the code has already advanced it; callers stop at the first error.
- UploadFlow.UploadsFlow: models the server's actor by the reorder buffer of `Reorder` with the actor's limits, and a request as answered when its last frame is written; a failed POST ends the run.
- UploadSealing.BinaryLimits: gives closed numbers for the binary encoding with one padding rule; for the text encoding and for stages the condition is the sum of shortest frames in `UploadFlow.FrameRoom` and `UploadFlow.EosRoom`.
- UploadPatience.PatientLimitExactlyWhen: speaks of bodies whose frames after the first are full; that the batching loop makes such bodies is `UploadPatience.TakeBatch`, and the two are not joined. For the text encoding and for padding stages only `UploadPatience.PatientNeedsRoom` is proved.
- UploadActor.WriteRun: models the write over a TCP upstream; for an HTTP/3 upstream `Masque.MasqueSend.WriteFrames` makes the same promise, but the two are not joined.
- Tunnel.SingleOwner: the shaper is the list of frames it will put out; that this list is a shaped stream is `Shaper.Shape` and `Download.ShapedFramesHold`.
- Token.Validator.Validate: takes the lookup, the check and the insertion to happen at one reading of the clock, and the cache's clock to be the system clock.
- Masque.MasqueSend.WriteFrames: asks that no frame begun by `poll_write` is unfinished, as the two are not mixed in the program, and that no piece has 2^62 bytes.
- Varint.IntRoundTrip: asks that the bits of the first byte below the prefix are zero, as in every call.
- HeadRewrite.Buffer.RewriteRequestLine: what counts as UTF-8 is a parameter.
- IP networks in the bypass rules, host extraction, URL parsing and `rewrite_absolute_url`: library calls and wrappers that would only add easy members.
- Buffer capacities, logging, configuration files, error texts and the redirect listener: no logic to prove.
