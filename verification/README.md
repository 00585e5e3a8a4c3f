# Vibetop: the protocols and stateful cores, modelled and proved in Dafny

Vibetop serves a desktop in the browser: terminals, uploads, an embedded browser, system metrics, scheduled
messages. This project models the parts of its server and shell where a claim is about every run, every way a
stream may be split, or every point at which a process may stop, and proves those claims.

| area | modules |
|---|---|
| Streaming multipart uploads | `Bytes`, `Multipart` (the whole body, rendering and parsing), `MultipartMime` (bodies as RFC 2046 writes them), `MultipartReaders` and `MultipartIterator` (the readers and the iterator in place) |
| Activation under a write-ahead journal | `Journal` (the steps, their fates, crash atomicity), `Activation` (the class) |
| Terminal transport over HTTP | `WebSocket`, `WebSocketReader` (RFC 6455), `RelaySpec`, `Relay` (the class), `RelayProtocol` (client and server over a lossy network), `TerminalOutput` (from ttyd's bytes to the client) |
| Browser identities | `Authority` (the operations), `AuthorityUse` (what they grant, and for how long), `AuthorityRuns`, `AuthorityRevocation`, `AuthorityUsers` (one use and revocation over runs), `BrowserAuthority` (the class) |
| Browser services | `CommitMarker` (runs of one release), `RuntimeOutcomes` (when an operation succeeds), `ReleaseRuns` (histories of releases), `BrowserRuntime` (the class) |
| Metrics | `MetricsRing` (rings and windows), `MetricsHistory` (two levels of averaging), `MetricsRecorder` (the class) |
| Codex rate limits | `CodexScan` (the best reading of a window), `RolloutScan` (the incremental scan) |
| Token statistics | `TokenStats` (cache, replay, de-duplication) |
| Scheduled messages | `Schedules`, `ScheduleRuns`, `ScheduleHistory`, `ScheduleRequests` (runs), `Sweeper` (the class) |
| Closing an app on all devices | `Desktop` (the server half), `DeskState` (the client half), `DesktopRegistry` (the class) |
| Physical drives under a block device | `DiskParents` |

Where the source changes state, a class with the source's fields changes it too, and each method is proved
against a function on values (`ensures State(s) == ...`, or a ghost list of events whose run is the state). The
lemmas then speak about runs of those functions. Failures and crashes are data: a list of fates says what every
write, call or save does, so a lemma about all lists is one about all crash points. Concurrency is modelled one
locked region at a time, in any order. Times and averages are reals. `dafny verify dfyconfig.toml` checks
everything.

## What the proofs found

These promises fail in the code; each has its exact condition or a concrete failing run below.

* A part without any header line, which RFC 2046 allows, is misread or refused: a body reads back if and only if every
  part has a header line and is delimited (`MultipartMime.MessageExact`).
* A preamble can be taken for the form: everything delimited that may follow it is read back if and only if the
  boundary first occurs right after it (`Multipart.PreludeExact`, `Multipart.MentionMakesEmptyForm`).
* After a complete form part of the body can stay on the connection; it cannot, however the body is split, if and only
  if nothing follows the closing boundary (`MultipartIterator.HandleUpload`).
* Input can be typed after the write of a pong failed; it cannot if and only if the relay was already closed
  (`RelayProtocol.FailedPongExact`).
* An immediate activation that raises has put everything back, unless it was only the clearing of the journal that raised:
  then the new pair is in place (`Journal.ActivateExact`; `Journal.AdoptionExact` for finish).
* Repairing a deferred activation can end with the old site and the new configuration; it cannot if and only if
  the activation leaves the site alone (`Journal.HandedOverExact`, `Journal.DeferredExact`).
* An entry permit can be consumed twice if and only if it can expire between the two clock readings of one
  consumption (`AuthorityRuns.TwoReadingsExact`, `AuthorityRuns.SecondConsumptionExact`).
* A revoked session can begin again if and only if it outlasts seven days (`AuthorityRevocation.RevocationExact`).
* Over a history of releases, services can be started with two secrets if and only if a release comes back after
  another one (`ReleaseRuns.MarkerExact`).
* A window's point counts neighbours' buckets unless the tier's step divides the point's
  (`MetricsRing.EachBucketOnceExact`, `MetricsRing.SixHoursMiscount`).
* A transcript whose open failed stays empty exactly while every pass finds it unchanged among at most 4000 live files
  (`TokenStats.FaithfulExact`, `TokenStats.FailedOpenExact`).
* With passes that do not overlap, a pass leaves a slot to be delivered twice if and only if its results are not saved,
  because the write fails or the manager dies, after it delivered to an entry that still waits
  (`ScheduleHistory.RepeatsExact`, `ScheduleRuns.FailedWriteRepeats`).

## Model

| member | source | states |
|---|---|---|
| Multipart.RoundTripExact | server/terminal-manager.py:5384-5437 | After a prelude in which the boundary first occurs at its end, a rendered body reads back as exactly its parts if and only if each head is delimited by its blank line and each content by CRLF+boundary: the delimiter first occurs right after the text. |
| Multipart.RoundTrip | server/terminal-manager.py:5384-5437 | For any parts so delimited and any epilogue, parsing the rendered body gives the parts in order and ends at the closing boundary (section 5.1 of RFC 2046). The prelude must not complete a boundary before its end; PreludeExact says that nothing less will do. |
| Multipart.PreludeExact | server/terminal-manager.py:5386-5408 | Everything delimited that may follow a prelude is read back if and only if the boundary first occurs right after the prelude: the source searches for it anywhere, not only where a line starts, so a preamble that RFC 2046 allows can be taken for the start or the end of the form. |
| Multipart.MentionMakesEmptyForm | server/terminal-manager.py:5386-5402 | The failing bodies: a preamble that mentions the boundary followed by two dashes makes an empty form of any body, whatever its parts. |
| Multipart.EpilogueInverts | server/terminal-manager.py:5384-5437 | What follows the closing boundary of a rendered body is its epilogue. |
| Multipart.TruncationExact | server/terminal-manager.py:5384-5437 | Of a rendered body that breaks off at any byte, exactly the parts that are there whole are read, and the error says what the rest lacks: the first boundary, its two bytes, a head, a content's separator, or that one's two bytes. |
| Multipart.FilesExact | server/terminal-manager.py:5424-5429 | The files are the parts that carry a file name, each once, in order, with its own content. |
| Multipart.HeaderlessPartIsRefused | server/terminal-manager.py:5409-5418 | A part without headers after which no blank line occurs is refused: the search for its head runs to the end. |
| MultipartMime.MessageExact | server/terminal-manager.py:5384-5437 | After a clean prelude, a body written as RFC 2046 does, where each header line ends in CRLF and there may be none, reads back as its parts if and only if every part has a header line and its head and content are delimited. |
| MultipartMime.HeaderlessNeverReadBack | server/terminal-manager.py:5409-5434 | A part without header lines, whatever its content and whatever follows, is never read as a part with an empty head and that content: its blank line is taken for the end of the boundary line. |
| MultipartMime.OnePartExact | server/terminal-manager.py:5409-5437 | One part of such a body and what follows it read back exactly when the part has a header line and is delimited and the rest reads back. |
| MultipartMime.BlockOfLines | server/terminal-manager.py:5412-5424 | Header lines that each end in CRLF, with the blank line, are their joined text and the four bytes the parser looks for. |
| Multipart.ParsePart | server/terminal-manager.py:5409-5437 | One rendered part, followed by the close or by more parts, is read as that part and the parse goes on exactly at what follows it. |
| MultipartReaders.LimitedReader.Read | server/terminal-manager.py:5458-5472 | Whatever non-empty prefix the socket answers with, the pieces are the body in order, an empty answer means the end (or that nothing was asked for), and no more than Content-Length is ever taken off the socket. |
| MultipartReaders.PrependedReader.Read | server/terminal-manager.py:5440-5455 | Reading a pushed-back stream at any sizes yields the pushed-back bytes and then the inner stream, nothing lost or repeated; an empty answer to a non-zero size means the end. |
| MultipartReaders.BoundaryReader.Read | server/terminal-manager.py:5357-5381 | Each chunk is the next piece of the content cut at the first separator of the whole remaining stream, however it is split into reads; when done, the terminator and the pushed-back rest are those of that cut; each error is raised exactly for a stream without separator or without two bytes after it. |
| MultipartReaders.BoundaryReader.Terminate | server/terminal-manager.py:5361-5373 | With the separator buffered, the two bytes after it are fetched two at a time and content, terminator and leftover are the whole stream's. |
| MultipartReaders.HoldBack | server/terminal-manager.py:5374-5377 | All buffered bytes but as many as the separator has may be yielded: no separator of the stream starts in them, and the rest of the stream is cut as before. |
| MultipartReaders.CutAfterDrop | server/terminal-manager.py:5357-5381 | Dropping bytes in which no separator starts changes a stream's cut only by those bytes. |
| Bytes.FindExtends | server/terminal-manager.py:5359-5398 | The first occurrence of a separator, once complete, stays the first whatever is read later. |
| MultipartIterator.SkipPrelude | server/terminal-manager.py:5386-5408 | Everything up to the first boundary of the whole body is dropped; an empty body, a truncated boundary and the empty form are told apart as for the whole body. |
| MultipartIterator.ReadHead | server/terminal-manager.py:5412-5419 | The head is what precedes the first blank line of the remaining stream, and what was read beyond it is pushed back. |
| MultipartIterator.PassContent | server/terminal-manager.py:5425-5434 | Whatever a consumer reads of a part, what it saw and what is then drained are together the part's exact content, and the stream stands at what follows the part. |
| MultipartIterator.IterFiles | server/terminal-manager.py:5384-5437 | For any splitting of the body into reads and any consumer, the iterator terminates, yields exactly the file parts of the parse of the whole body with exact contents in order, and ends as that parse does. |
| MultipartIterator.HandleUpload | server/terminal-manager.py:6477-6519 | The handler stores the files of the first Content-Length bytes and never reads past them. After a parse error none of the declared body is left unread; after a complete form only an end of what follows the closing boundary is, and all of that if the bytes come one at a time, so that the body is fully read for every splitting exactly when nothing follows. |
| MultipartIterator.UploadRoundTrip | server/terminal-manager.py:6477-6519 | A well-formed upload is stored file by file as it was rendered, whatever else the connection carries after it; those later bytes stay unread, behind an end of the epilogue or, from a slow peer, all of it. |
| Journal.StepUnder | server/browser_proxy_deploy.py:98-112 | Every file write and reload of a switch or a restore leaves the pair of files and nginx's loaded copy between old and new, whether it happens, raises or is the last. |
| Journal.RestoreOutcome | server/browser_proxy_deploy.py:98-112 | A restore that clears the journal has put back both files and nginx's copy; interrupted, it leaves a state between the two pairs under the same journal. |
| Journal.SwitchOutcome | server/browser_proxy_deploy.py:189-205 | The switch, wherever it stops, leaves a state between; when it runs through, both files are new and nginx serves the new site. |
| Journal.ActivateOutcome | server/browser_proxy_deploy.py:175-209 | An activation stopped anywhere leaves either the promise of crash atomicity or, if deferred, a record handed to the restart watchdog. |
| Journal.RepairKeepsAtomic | server/browser_proxy_deploy.py:114-172 | Every repair of a staged record (recover, recover_pending, finish, rollback), interrupted or not, keeps the promise. |
| Journal.CrashAtomicity | server/browser_proxy_deploy.py:98-209 | Stop an immediate activation anywhere, then run any repairs, each stopping anywhere: once the journal is gone, config and site are both old or both new and nginx's loaded site equals the site file. |
| Journal.ActivateOverStaged | server/browser_proxy_deploy.py:175-179 | An activation over an interrupted one takes that one back first: the promise then holds for one of the pairs involved, never a mixture. |
| Journal.AnyMixSettles | server/browser_proxy_deploy.py:98-209 | Whatever immediate activations and repairs follow each other, each stopping anywhere: whenever no journal is left, config and site are one whole requested pair, or the first one, and nginx serves that site. |
| Journal.HandedOverRepair | server/browser_proxy_deploy.py:121-172 | One repair of a handed-over activation settles it or leaves its journal in place; recoveries never touch the files. |
| Journal.RecoveriesKeepHandedOver | server/browser_proxy_deploy.py:126-155 | Any number of recoveries adopt a handed-over activation or leave it untouched. |
| Journal.HalfRestoredIsAdopted | server/browser_proxy_deploy.py:114-148 | A rollback of a pending record that dies between the two files, followed by a recovery, leaves old site and new config without a journal, which breaks the promise. |
| Journal.HandedOverExact | server/browser_proxy_deploy.py:98-172 | Repairs of a pending record keep the promise at every crash point if and only if the activation does not change the nginx site, because such a restore does not mark the record as staged first. |
| Journal.DeferredExact | server/browser_proxy_deploy.py:175-209 | A deferred activation as a whole, over all its own crash points too, keeps the promise if and only if it does not change the nginx site. |
| Journal.ActivateExact | server/browser_proxy_deploy.py:175-209 | An immediate activation succeeds exactly if its 7 or 9 steps are all done, and then both files are new, nginx serves the new site and no journal is left. When it raises without a journal, the old pair is back, unless it was only the clearing of the journal that raised, after the journal was gone. |
| Journal.DeferredTakes | server/browser_proxy_deploy.py:175-203 | A deferred activation is handed over exactly if its steps are all done: new pair in place and served, the record waiting for the restart with the old instance. |
| Journal.StagedExact | server/browser_proxy_deploy.py:114-172 | A recovery or a rollback of an interrupted activation succeeds exactly if its steps are all done, and then the old pair is back; finish and recover_pending refuse and touch nothing. |
| Journal.AdoptionExact | server/browser_proxy_deploy.py:121-172 | Finishing or recovering a handed-over activation succeeds exactly if its steps are all done, and then the new pair stays; when finishing raises without a journal the old pair is back, unless only the clearing raised; a recovery never touches the files. |
| Journal.CandidateChanged | server/browser_proxy_deploy.py:126-172 | A pending record whose configuration is no longer the one it names is not adopted: recoveries fail and touch nothing, and finishing ends with the old pair or with the journal still there. |
| Journal.RollbackExact | server/browser_proxy_deploy.py:98-119 | A rollback of a handed-over activation succeeds exactly if its steps are all done, and then the old pair is back. |
| Activation.Activation.Restore | server/browser_proxy_deploy.py:98-112 | Working on the files, nginx and the journal in place, step by step with early exits, restore ends in exactly the state the journal specification gives for these fates. |
| Activation.Activation.RecoverRecord | server/browser_proxy_deploy.py:135-148 | Working on the files, nginx and the journal in place, step by step with early exits, recovery of a record ends in exactly the state the journal specification gives for these fates. |
| Activation.Activation.Repair | server/browser_proxy_deploy.py:114-172 | Working on the files, nginx and the journal in place, step by step with early exits, recover, recover_pending, finish and rollback ends in exactly the state the journal specification gives for these fates. |
| Activation.Activation.Switch | server/browser_proxy_deploy.py:189-205 | Working on the files, nginx and the journal in place, step by step with early exits, the steps under the staged journal ends in exactly the state the journal specification gives for these fates. |
| Activation.Activation.Activate | server/browser_proxy_deploy.py:175-209 | The activation in place does what the specification says; started from a settled state, it ends without an error only with the new pair, served by nginx and without a journal, and without a journal only with the new pair or the old one. |
| WebSocket.SentFrameDecodes | server/terminal_transport.py:70-75 | A decoder of client frames (sections 5.2 and 5.3 of RFC 6455) applied to any frame written by `_send` gives a final frame with the opcode and the data, for every mask and all three length forms, and stands at what follows. |
| WebSocket.HeaderInverts | server/terminal_transport.py:79-84 | A frame header with any of the three length forms that fits reads back as flags, mask bit and length. |
| WebSocket.BigEndianInverts | server/terminal_transport.py:82-84 | The network-order lengths written by struct.pack read back. |
| WebSocket.MaskedTwice | server/terminal_transport.py:70-75 | Masking twice with one mask gives the data back. |
| WebSocket.UnmaskMasked | server/terminal_transport.py:70-75 | What is sent masked comes out of a receiver that turns the key round octet by octet (section 5.3 of RFC 6455). |
| WebSocketReader.Upstream.ReadFrame | server/terminal_transport.py:80-88 | Reading a frame off the stream gives the next frame of the remaining bytes, its end, or its refusal, and consumes exactly it. |
| WebSocketReader.ReadLoop | server/terminal_transport.py:77-128 | The loop over a byte stream queues and answers exactly what the frame-by-frame reading of the whole stream says, and ends the same way. |
| WebSocketReader.WiresRead | server/terminal_transport.py:77-128 | The bytes of a list of unmasked frames have the effects of those frames, and the reading goes on with what follows. |
| WebSocketReader.MessagesRead | server/terminal_transport.py:77-128 | Any legal text and binary messages within the size limit, each cut into any fragments with control frames in between and any length forms, are queued whole, in order and with their opcodes, and each ping is answered with its own payload (sections 5.4 and 5.5 of RFC 6455). |
| WebSocketReader.EffectsWithinLimits | server/terminal_transport.py:77-128 | Whatever bytes arrive, only opcodes 1 and 2 within MAX_FRAME are queued and no answer exceeds 125 bytes. |
| WebSocketReader.BadHeaderRefused | server/terminal_transport.py:79-86 | A frame with reserved bits, a mask or a length over MAX_FRAME ends the loop without effect, whatever follows its header and whatever message is in progress. |
| WebSocketReader.FrameExact | server/terminal_transport.py:87-110 | Of well-formed frames exactly those that sections 5.4 and 5.5 of RFC 6455 allow at this point are read on from; a close ends the loop as the peer's, any other frame as a bad one. |
| WebSocketReader.StreamCutOff | server/terminal_transport.py:64-68 | A stream that is cut off anywhere within a frame has exactly the effects of the frames before it. |
| Relay.Relay.Enqueue | server/terminal_transport.py:112-122 | A message joins the deque and the history under the next number exactly on an open relay whose size leaves room for it; it is dropped once closed, and waits otherwise; the deque holds exactly numbers acked+1 to sequence and `size` their payload. |
| Relay.Relay.Forget | server/terminal_transport.py:136-137 | Popping acknowledged frames leaves exactly those after the acknowledgement, with `size` their payload. |
| Relay.Relay.PollBegin | server/terminal_transport.py:130-137 | An acknowledgement outside acked..sequence is refused without change; an accepted one moves `acked` and releases what it covers. |
| Relay.Relay.AckRequest | server/terminal_transport.py:284-289 | A late acknowledgement counts as the newest one; one beyond the sequence is refused. |
| Relay.Relay.PollEnd | server/terminal_transport.py:141-152 | The response carries the retained frames past the cursor up to the batch limits and reports closed only when they reach the last number. |
| Relay.Collect | server/terminal_transport.py:141-150 | The loop over the deque collects the longest batch of frames past the cursor that the limits allow, at least one if there is one. |
| Relay.Relay.Send | server/terminal_transport.py:154-171 | An input is typed only under the next number on an open relay; repeats are confirmed without typing, gaps and closed relays refused, and a failed write closes the relay. |
| Relay.Relay.SendAll | server/terminal_transport.py:292-313 | A request's inputs are typed in order up to the first refusal. |
| RelayProtocol.OutputDelivery | server/terminal_transport.py:111-152 | Over every interleaving of upstream messages, polls, streams, acknowledgements, lost, repeated or reordered responses and close, an honest client's output is a gap-free prefix of the upstream messages and every message past its cursor is retained. |
| RelayProtocol.BoundedBuffer | server/terminal_transport.py:112-122 | The payload of the retained frames never exceeds MAX_BUFFER. |
| RelayProtocol.ClosedIsFinal | server/terminal_transport.py:111-171 | From any reachable closed state on nothing more is queued, and nothing typed but an input that was already being written at the close, as writing and closing hold different locks. |
| RelayProtocol.HonestClose | server/terminal_transport.py:151-181 | A client that was told the relay is closed holds every message ever queued, then and after any later events. |
| RelayProtocol.ExactlyOnceInput | server/terminal_transport.py:154-171 | Over all retries, overlaps and partial failures of batched sends, the inputs completely written to ttyd are the client's first ones, once each, in order. |
| RelayProtocol.NoInputAfterFailure | server/terminal_transport.py:163-171 | When the write of a batch's next new input after m others fails, exactly those m are typed, and no later event types anything more. |
| RelayProtocol.NoInputAfterFailedWrite | server/terminal_transport.py:163-171 | An input that is checked and written in steps, while the rest goes on: once its write fails, nothing is ever typed again. |
| RelayProtocol.FailedPongExact | server/terminal_transport.py:99-101 | The failing case: the write of a pong gives up its lock before it closes the relay, so nothing is typed after it fails in any continuation if and only if the relay was already closed. |
| RelayProtocol.AcksMakeRoom | server/terminal_transport.py:114-116 | A reader blocked on a full buffer can always be released by the client's polls and acknowledgements alone. |
| RelayProtocol.PollRound | server/terminal_transport.py:130-152 | A poll at the client's cursor brings at least one new message when there is one. |
| RelayProtocol.StepKeeps | server/terminal_transport.py:111-210 | Every event keeps the invariant that ties client, responses on their way and streams to the server's history. |
| RelayProtocol.RoomQueues | server/terminal_transport.py:111-122 | On an open relay whose retained payload leaves room for it, a message joins the history, and nothing else changes. |
| RelayProtocol.EverythingArrives | server/terminal_transport.py:111-152 | From any moment on at which the relay is open, for any further messages within MAX_FRAME there is a run in which ttyd sends just these, the client polls and acknowledges, and ends up with all of them, in order. |
| RelayProtocol.CloseIsTold | server/terminal_transport.py:130-152 | After a close, the client's own requests bring it every message that was queued, and then tell it of the close. |
| RelayProtocol.StreamRound | server/terminal_transport.py:184-209 | A stream opened at the client's cursor brings at least one new message when there is one. |
| RelayProtocol.InputArrives | server/terminal_transport.py:154-171 | On an open relay, a request with all further inputs whose writes succeed types them all. |
| RelayProtocol.LateAckCounts | server/terminal_transport.py:284-289 | In any reachable state an honest client's acknowledgement, however late, releases what it covers and nothing more. |
| RelaySpec.WindowShrinks | server/terminal_transport.py:136-137 | Acknowledging drops a prefix of the retained window and never enlarges it. |
| RelaySpec.BatchExact | server/terminal_transport.py:141-150 | A response carries what is waiting up to the first point at which it has 128 frames or MAX_FRAME bytes, or all of it. |
| RelaySpec.SendTells | server/terminal_transport.py:154-171 | A request is confirmed exactly when all its inputs are typed, refused with 409 exactly when it leaves a gap and then changes nothing; any other refusal is a 410 of a closed relay. |
| RelaySpec.AckExact | server/terminal_transport.py:284-289 | An acknowledgement of any number up to the newest message is accepted, and moves the window only forward. |
| TerminalOutput.TerminalReachesClient | server/terminal_transport.py:77-152 | End to end: of any legal messages that ttyd sends, cut into any frames and with any bytes after them, a client holds at any time, over any network, a gap-free prefix, each message whole; when told that the relay is closed, all that was ever queued. |
| TerminalOutput.TerminalCanReachClient | server/terminal_transport.py:77-152 | Whatever legal messages ttyd sends, there is a run in which the client gets exactly these. |
| TerminalOutput.ExpectedQueuesWhole | server/terminal_transport.py:90-128 | Of fragments and control frames the relay is offered exactly the whole messages, in order. |
| Authority.FindLease | server/browser_proxy_auth.py:127-129 | The reused lease is a stored one of this user, session and epochs; none is reported only when none matches. |
| Authority.LatestExp | server/browser_proxy_auth.py:248-249 | The default expiry of a revocation is the latest expiry of the session's leases, 0 without any. |
| AuthorityRuns.CredentialsWorkOnce | server/browser_proxy_auth.py:107-241 | Over any run of requests with expiry collection, failed saves with either durable outcome and restarts from the durable copy, in which no permit expires between the two clock readings of its consumption, no handoff ticket is redeemed twice and no entry permit consumed twice. |
| AuthorityRuns.SpentPermitExact | server/browser_proxy_auth.py:229-241 | A permit on record is accepted again exactly when the collection, at the second clock reading, finds it expired. |
| AuthorityRuns.TwoReadingsExact | server/browser_proxy_auth.py:229-241 | When consumptions read the clock once, or at two given moments, some run from an empty database uses a ticket or a permit twice if and only if a whole second, at which a permit can expire, lies between the two moments. |
| AuthorityRuns.SecondConsumptionExact | server/browser_proxy_auth.py:229-241 | In any run so far sound, a permit already consumed that verifies is consumed a second time exactly when it expires between the two readings. |
| AuthorityRuns.StraddlingConsumesTwice | server/browser_proxy_auth.py:229-241 | The failing run: sign in, mint a permit, consume it, and consume it again with its expiry between the two readings. |
| AuthorityRuns.RedeemSound | server/browser_proxy_auth.py:157-172 | A redemption, also one whose save fails, leaves every ticket redeemed so far gone from both copies and every permit consumed so far recorded or expired in both, and redeems none a second time. |
| AuthorityRuns.ConsumeSound | server/browser_proxy_auth.py:229-241 | A consumption whose permit does not expire between its two clock readings, also one whose save fails, leaves every permit consumed so far recorded in both copies for as long as it could verify, and consumes none a second time. |
| AuthorityUsers.UserRevocationLasts | server/browser_proxy_auth.py:267-275 | After a saved revocation of a user in any reachable world, over any later events, collections, failed saves and restarts, no ticket for one of the user's leases is redeemed and no credential of the user minted before verifies or is consumed. |
| AuthorityUsers.RevokeUserExact | server/browser_proxy_auth.py:267-275 | Revoking a user takes exactly that user's leases and advances that user's epoch; leases and profiles of others, tickets, spent permits and tombstones stay as they were; only storage can refuse it. |
| AuthorityUsers.EpochLasts | server/browser_proxy_auth.py:73-98 | An epoch reached in both copies is never gone back on, not by failed saves and restarts either. |
| AuthorityUse.ProfileExact | server/browser_proxy_auth.py:86-98 | With working storage a user keeps the one profile recorded under that name, or gets one with a new id and epoch 0, durably; under another name the request is refused. |
| AuthorityUse.BeginExact | server/browser_proxy_auth.py:114-143 | With working storage a sign-in is accepted exactly if it comes from a main origin with a token and the current main epoch, for a user known by that name, with a session that runs and is not revoked, and a lease stands for it already or fewer than 4096 are live, and fewer than 1024 tickets are pending. |
| AuthorityUse.BeginGives | server/browser_proxy_auth.py:126-143 | An accepted sign-in leaves, durably, a new ticket for a minute bound to its origin, and a live lease of just this session and user; a new lease ends with the session or after a week. |
| AuthorityUse.SignInServes | server/browser_proxy_auth.py:114-155 | In any reachable world, the lease of an accepted sign-in is served for as long as it runs, whatever else happens with working storage, restarts included, unless its session or user is revoked or the main epoch changes. |
| AuthorityUse.LeaseLasts | server/browser_proxy_auth.py:145-155 | A lease on record is kept by every later event that does not revoke its session or its user, for as long as it runs. |
| AuthorityUse.CredentialLasts | server/browser_proxy_auth.py:189-210 | Over the same events a minted credential verifies exactly until it expires. |
| AuthorityUse.RedeemExact | server/browser_proxy_auth.py:157-172 | With working storage a ticket is redeemed exactly in its minute, in a frame of its own origin or by a renewal of the browser's, while its lease is served; then it, and only it, is gone. |
| AuthorityUse.MintExact | server/browser_proxy_auth.py:174-210 | A credential is minted exactly for a lifetime of up to a week on a served lease, bound only as an entry permit; it then verifies in its own role and for its own user, and for nothing else, until that lifetime or its lease is over. |
| AuthorityUse.ConsumeExact | server/browser_proxy_auth.py:229-241 | With working storage an entry permit is accepted exactly if it verifies as one of this user, comes with what it is bound to from the right place, is not on record as spent and live, and fewer than 4096 are; then it is on record. |
| AuthorityUse.RevokeSessionExact | server/browser_proxy_auth.py:243-265 | With working storage revoking a running session succeeds exactly if it has a tombstone or fewer than 8192 are live; its live leases, and only they, go and are reported, and all other tombstones stay. |
| AuthorityUse.RevokeDefault | server/browser_proxy_auth.py:248-250 | Without an expiry a revocation reaches exactly as far as the latest of the session's live leases. |
| AuthorityRevocation.RevocationLasts | server/browser_proxy_auth.py:243-265 | After a session that ends within seven days is revoked, nothing begins, no ticket of it is redeemed and no credential of its leases is verified or consumed for the rest of any run, not even after the tombstone is collected. |
| AuthorityRevocation.RevocationExact | server/browser_proxy_auth.py:114-265 | In every world that a deployment with a main origin can reach, a saved revocation of a session that still runs keeps everything from being granted for it, over all later runs in which it is presented with its own expiry, if and only if the session ends within seven days. |
| AuthorityRevocation.BeyondTheWeek | server/browser_proxy_auth.py:114-143 | The failing run: a session that outlasts seven days begins again the moment its tombstone expires. |
| AuthorityRevocation.RunReaches | server/browser_proxy_auth.py:114-265 | In every reachable world nothing on record, in either copy, outlasts a week from now, and lease and ticket ids are below the next one. |
| AuthorityRevocation.TombstoneExact | server/browser_proxy_auth.py:250-258 | The tombstone is collected while the main session still runs if and only if the session outlasts seven days. |
| AuthorityRevocation.ExpiriesChain | server/browser_proxy_auth.py:114-210 | Over any run, whatever is verified is live, ends no later than its lease, and the lease no later than its main session. |
| BrowserAuthority.BrowserAuthority.Save | server/browser_proxy_auth.py:73-81 | A failed save marks the database failed, and its durable copy is the old or the new one. |
| BrowserAuthority.BrowserAuthority.Collect | server/browser_proxy_auth.py:107-112 | Deleting expired records one by one leaves exactly the live ones in all four tables. |
| BrowserAuthority.BrowserAuthority.Begin | server/browser_proxy_auth.py:114-143 | begin in place, with its checks in the source's order, ends in exactly the result and database of the specification. |
| BrowserAuthority.BrowserAuthority.Ticket | server/browser_proxy_auth.py:126-143 | finding or making the lease and handing out the ticket, with its checks in the source's order, ends in exactly the result and database of the specification. |
| BrowserAuthority.BrowserAuthority.Redeem | server/browser_proxy_auth.py:157-172 | redeem in place, with its checks in the source's order, ends in exactly the result and database of the specification. |
| BrowserAuthority.BrowserAuthority.Mint | server/browser_proxy_auth.py:174-187 | mint in place, with its checks in the source's order, ends in exactly the result and database of the specification. |
| BrowserAuthority.BrowserAuthority.ConsumeEntry | server/browser_proxy_auth.py:229-241 | consume_entry in place, with its checks in the source's order, ends in exactly the result and database of the specification. |
| BrowserAuthority.BrowserAuthority.RevokeSession | server/browser_proxy_auth.py:243-265 | revoke_session in place, with its checks in the source's order, ends in exactly the result and database of the specification. |
| BrowserAuthority.BrowserAuthority.RevokeUser | server/browser_proxy_auth.py:267-275 | revoke_user in place, with its checks in the source's order, ends in exactly the result and database of the specification. |
| BrowserAuthority.DropExpired | server/browser_proxy_auth.py:107-112 | The deletion loop over one table keeps exactly the records that are still live. |
| CommitMarker.StartedWithOneSecret | server/browser_proxy_runtime.py:81-216 | For one release, under failure of any file write or systemctl call in any run of ensure, route, revoke, stops and restarts, whenever the services are started egress.json and rewrite.json hold the same secret. |
| CommitMarker.ListeningWithOneSecret | server/browser_proxy_runtime.py:173-263 | Over the same runs, whenever the socket listens, so that a connection may start the services, both files hold the same secret. |
| CommitMarker.RoutedIdentity | server/browser_proxy_runtime.py:165-252 | Over the same runs, a route is given only to a live lease whose identity is the one on record and in rewrite.json. |
| ReleaseRuns.MarkerExact | server/browser_proxy_runtime.py:173-216 | Over any history of releases, with any operations and failures under each, the services are only ever started, and only left listening, with one secret in both files if and only if no release comes back after another one. |
| ReleaseRuns.NewReleasesKeep | server/browser_proxy_runtime.py:173-216 | While no release comes back, every upgrade keeps the marker honest, since a marker of an earlier release is never taken for the running one. |
| ReleaseRuns.ReturnIsDishonest | server/browser_proxy_runtime.py:173-216 | The failing run for any release that comes back: activate it, fail to activate another right after its egress.json is written, come back. |
| CommitMarker.FailsAfterEgress | server/browser_proxy_runtime.py:98-109 | An activation that fails right after egress.json leaves a new secret beside the old marker. |
| CommitMarker.PrepareKeeps | server/browser_proxy_runtime.py:81-109 | With neither marker nor listener vouching, preparing either fails in such a state or commits a marker whose secret egress.json holds. |
| CommitMarker.EnsureKeeps | server/browser_proxy_runtime.py:173-216 | Every outcome of ensure keeps the marker honest. |
| RuntimeOutcomes.EnsureExact | server/browser_proxy_runtime.py:173-216 | Under the marker's invariant, bringing the services up succeeds exactly for a live lease of the identity on record when its 1, 8 or 10 steps are all done; then they run and listen with that identity and one secret in both files, and the activation is remembered. |
| RuntimeOutcomes.PrepareExact | server/browser_proxy_runtime.py:81-109 | Preparing takes seven steps and ends with a new secret in both files and the marker of the running release and identity. |
| RuntimeOutcomes.RevokeExact | server/browser_proxy_runtime.py:254-263 | Revoking succeeds exactly if the database is saved and both stops are done; then the epoch has moved on durably, and nothing listens, runs or is remembered. In any case no claim of the old epoch is valid for this process again. |
| RuntimeOutcomes.StopExact | server/browser_proxy_runtime.py:254-263 | Stopping succeeds exactly if both calls are done, and then nothing listens or runs; the cached activation is forgotten in any case. |
| RuntimeOutcomes.RouteExact | server/browser_proxy_runtime.py:218-252 | A route is given exactly to a live lease of the identity on record when an activation of its epoch is remembered, or the socket listens under a configuration of that identity; it starts and writes nothing. |
| BrowserRuntime.BrowserRuntime.Prepare | server/browser_proxy_runtime.py:81-109 | prepare in place, every write and systemctl call in order with early exits, ends in exactly the state of the specification for these failures. |
| BrowserRuntime.BrowserRuntime.Ensure | server/browser_proxy_runtime.py:173-216 | ensure in place, every write and systemctl call in order with early exits, ends in exactly the state of the specification for these failures. |
| BrowserRuntime.BrowserRuntime.Route | server/browser_proxy_runtime.py:218-252 | route in place, every write and systemctl call in order with early exits, ends in exactly the state of the specification for these failures. |
| BrowserRuntime.BrowserRuntime.Revoke | server/browser_proxy_runtime.py:254-263 | revoke in place, every write and systemctl call in order with early exits, ends in exactly the state of the specification for these failures. |
| MetricsRing.StoredExact | server/metrics_history.py:164-184 | Reading bucket b gives a row if and only if that row was written for b and no later write used b's slot. |
| MetricsRing.DistinctSlots | server/metrics_history.py:166-167 | Aligned buckets less than one lap apart never share a slot. |
| MetricsRing.CoveredPeriod | server/metrics_history.py:164-184 | With writes in bucket order, every row within the period the ring covers can still be read. |
| MetricsRing.Ring.Put | server/metrics_history.py:164-169 | Overwriting one slot leaves every slot holding the last write that fell into it. |
| MetricsRing.Ring.Get | server/metrics_history.py:171-184 | Reads back what the log of writes says is stored. |
| MetricsRing.PointReads | server/metrics_history.py:332-340 | When the tier's step divides the point's, a point reads each of its own buckets once and no other. |
| MetricsRing.EachBucketOnceExact | server/metrics_history.py:332-340 | In every window each tier bucket counts for the point it lies in and for no other if and only if the tier's step divides the point's. |
| MetricsRing.SixHoursMiscount | server/metrics_history.py:317-340 | The failing window: six hours in 600 points makes points of 36 seconds from the ring of whole minutes. |
| MetricsRing.WindowExtent | server/metrics_history.py:317-321 | The points span at most the asked span, or two seconds each where that is more, and reach past now. |
| MetricsRing.WindowSpans | server/metrics_history.py:315-318 | The points' step is as wide as the span asks for: two seconds more a point would span more than that. |
| MetricsRing.FineWhenItReaches | server/metrics_history.py:324-328 | The two-second ring is used exactly for spans it reaches back over. |
| MetricsRing.WindowRetains | server/metrics_history.py:309-343 | Whenever the picked ring holds as long as the points span, every row written since the window's start is still stored. |
| MetricsRing.RingHoldsWindow | server/metrics_history.py:317-328 | The picked ring holds as long as the points span for every span of up to a week and up to 3600 points, which covers all the history handler lets through. |
| MetricsRing.WindowCountsOnce | server/metrics_history.py:317-340 | When the steps divide, an aligned bucket inside the window counts in exactly one of its points, the one it lies in. |
| MetricsRing.WindowShows | server/metrics_history.py:309-343 | When the steps divide and the ring holds the window, a point is None exactly if no row written for its period knows the field, and otherwise its value times the number of those rows is their sum. |
| MetricsRing.MeanWeighted | server/metrics_history.py:77-79 | Means of joined values weigh as many values as they are of: mean times number adds up. |
| MetricsRing.MeanOfMultiset | server/metrics_history.py:77-79 | A mean does not depend on the order of the values, so not on who polled last. |
| MetricsRing.MeanBetween | server/metrics_history.py:77-79 | A mean lies between the least and the greatest of its values. |
| MetricsRing.MeanOne | server/metrics_history.py:77-79 | The mean of one value is that value. |
| MetricsRing.Window | server/metrics_history.py:309-343 | In place, each of the points is the mean of the known values stored for its buckets in the picked tier, None where nothing is known; MetricsRing.WindowShows says what that shows. |
| MetricsRing.ReadPoint | server/metrics_history.py:332-337 | The inner loop collects the field's values of every bucket Python's range visits that is still stored. |
| MetricsHistory.SamplesConserved | server/metrics_history.py:267-296 | With ticks that do not go back and no sample older than the last tick's open bucket, every closed fine bucket with samples was written once, in order, with the means of all its samples, every closed coarse bucket once with the means of all its fine means, and everything later is held and unwritten. |
| MetricsHistory.ValuesConserved | server/metrics_history.py:267-296 | In numbers, on both levels: after any timely run each row written for a fine bucket holds exactly the fields sampled in its two seconds, each value times the number of those samples being their sum, and each coarse row likewise of the fine rows of its minute; a closed bucket with something to average has a row. |
| MetricsHistory.LevelFlush | server/metrics_history.py:279-290 | Flushing the least held bucket of a level keeps its conservation and moves its open bucket past it. |
| MetricsHistory.LevelGather | server/metrics_history.py:267-270 | Gathering values for an open bucket keeps the conservation of a level. |
| MetricsRecorder.ClosedBucketsReadBack | server/metrics_history.py:164-296 | After any timely run, a closed fine bucket that the ring still covers reads back as the means of all its samples, and a coarse one as the means of all its fine means: each value times the number of those is what they add up to. |
| MetricsRecorder.SortedDue | server/metrics_history.py:279 | The due buckets, each once, in increasing order. |
| MetricsRecorder.Recorder.Note | server/metrics_history.py:265-270 | In place, a payload's values join their fine bucket and nothing else changes. |
| MetricsRecorder.Recorder.Tick | server/metrics_history.py:272-296 | In place, the sorted due buckets are flushed to the rings and to the coarse level exactly as the run of the model says; the buckets returned are those that had closed. |
| CodexScan.ResetNeverMovesBack | server/terminal-manager.py:1069-1091 | Over any readings, a held reset never moves back, the percentage falls only if some reading's reset jumped by at least half a window, and after such a jump the reset is at least a minute later. |
| CodexScan.HoldsResetExactly | server/terminal-manager.py:1069-1082 | A reset is held exactly when some reading carried one: readings without a reset never displace it. |
| CodexScan.GenerationMaximum | server/terminal-manager.py:1088-1091 | Readings of one generation give the latest reset and the highest percentage, each of them actually read, however stale or late they come. |
| CodexScan.OrderDoesNotMatter | server/terminal-manager.py:1055-1091 | Two interleavings of the same readings of one generation give the same result. |
| CodexScan.RolloverForgets | server/terminal-manager.py:1082-1091 | A reading whose reset is at least half a window later makes all earlier ones irrelevant, however low its number. |
| CodexScan.StaleIsIgnored | server/terminal-manager.py:1069-1089 | A record without a reading, one without a reset when one with a reset is held, and one of an earlier generation, however high its number, change nothing. |
| CodexScan.FirstReadings | server/terminal-manager.py:1078-1082 | As long as no reset is held, the newest reading is. |
| RolloutScan.FoldAppend | server/terminal-manager.py:1119-1153 | Scanning whole lines and then what follows them is scanning both at once. |
| RolloutScan.WindowIsBest | server/terminal-manager.py:1138-1155 | Each window of a scan's answer is the best of the readings of the accepted events of its complete lines of at most 1 MiB. |
| RolloutScan.ReadingsAreOwn | server/terminal-manager.py:1044-1053 | The windows are made of exactly the events of complete lines of at most 1 MiB that are of the Codex family, or of none and shaped like it. |
| RolloutScan.NewestIsLast | server/terminal-manager.py:1142-1151 | The newest event of a scan is the last of those. |
| RolloutScan.GrowthNeverMovesBack | server/terminal-manager.py:1094-1159 | However a file grows, a window's shown reset never moves back, and its percentage falls only when an appended reading rolled the window over. |
| RolloutScan.ReadLine | server/terminal-manager.py:1122 | readline with a limit: up to and with the first newline, never more than the limit or the file. |
| RolloutScan.Scanner.LastRateLimit | server/terminal-manager.py:1112-1159 | For any append-only growth and any call times, the cached incremental answer is what one scan from byte 0 would give, unfinished and oversized lines included; an OS error changes nothing. |
| RolloutScan.Scanner.ScanFrom | server/terminal-manager.py:1119-1153 | Resuming at a line boundary with the fold up to there ends at the last complete line with the fold up to there. |
| RolloutScan.Scanner.Discard | server/terminal-manager.py:1127-1132 | An oversized line is skipped in bounded chunks to exactly its end, or to the end of the file if it has none. |
| TokenStats.CountsFirstOccurrences | server/claude_stats.py:79-88 | Each total by day, hour and model is the sum over exactly the first occurrences of keyed records and all records without a key in its scope. |
| TokenStats.FirstExactlyWhenUnseen | server/claude_stats.py:204-207 | A record is a first occurrence exactly when its key has not been seen in the replay before it. |
| TokenStats.TotalConserved | server/claude_stats.py:232-235 | The models' totals add up to the sum over all first occurrences. |
| TokenStats.ColumnsAddUp | server/claude_stats.py:79-88 | Each column of each total, input, output, cache writes and reads, cost and requests, is the sum of that column over the first occurrences in its scope. |
| TokenStats.ListedExactly | server/claude_stats.py:204-215 | A day, an hour, a model or a session is listed exactly if some first occurrence is of it. |
| TokenStats.CacheTransparency | server/claude_stats.py:178-215 | After any history of added, changed and deleted transcripts whose signatures determine their contents and whose necessary reads succeed, a pass gives the totals of one cold pass over the same files in the same order. |
| TokenStats.FaithfulExact | server/claude_stats.py:196-203 | A pass over at most 4000 files leaves only true records cached if and only if every file it had to read could be opened or has no records. |
| TokenStats.FailedOpenExact | server/claude_stats.py:184-219 | However passes go on and whatever else they list, a pass that finds a file whose open once failed replays its files as if it had not listed this one, exactly while every pass, from the failed one on, found it unchanged among at most 4000 live files; once one did not, the file's records are replayed where it is listed. |
| TokenStats.SilentFile | server/claude_stats.py:194-207 | A file that contributes nothing is replayed as if it were not listed. |
| TokenStats.PassKeepsEntry | server/claude_stats.py:194-219 | A pass keeps what it served of a file exactly when it lists and finds it and at most 4000 files are live. |
| TokenStats.Stats.Compute | server/claude_stats.py:178-219 | The pass with its cache, live set, seen set and three dictionaries gives the replay of what the cache and the disk serve, and leaves exactly the live files cached, or none above the limit. |
| TokenStats.Stats.ReplayFile | server/claude_stats.py:204-215 | Replaying one file's records continues the replay of all earlier ones. |
| Schedules.NextSlotIsLeast | server/terminal-manager.py:4328-4340 | The next slot is a point of the grid at + k*every, strictly after now, and the least such. |
| Schedules.AcceptExact | server/terminal-manager.py:8442-8481 | A request is accepted exactly if it is not in the past or too far ahead and, for a loop, not too frequent, with an end and 1 to 500 slots up to it; it then starts when it asks to, or, for a loop that began long ago, at the first point of its own grid after now. |
| ScheduleRequests.CreateExact | server/terminal-manager.py:8440-8500 | A request enters the registry exactly if it is acceptable, its user has fewer than 20 waiting and the write succeeds; it then waits for the time and on the grid that it asked for, and nothing that waited before is touched. |
| ScheduleRequests.DeliveredAsAsked | server/terminal-manager.py:4476-4572 | Over any run of passes that do not overlap and each end safely, every delivery is for a slot that the message's own create request asked for, made when that time has come and no more than two hours later. |
| Schedules.OutcomeExact | server/terminal-manager.py:4524-4551 | A loop waits on exactly while a slot after now is left up to its end, for the first such, whether its delivery succeeded or not; otherwise it is sent exactly if this delivery succeeded, and missed exactly if it was too late and never ran. |
| Schedules.PruneExact | server/terminal-manager.py:4553-4566 | Pruning drops finished entries only, and changes nothing. |
| ScheduleHistory.AtMostOncePerSlot | server/terminal-manager.py:4476-4572 | With passes that do not overlap, at arbitrary times, each of which is saved or had delivered to nobody who still waits, an accepted message is delivered at most once per grid point, in order, none past `until`: a loop at most 500 times, a one-shot at most once. |
| ScheduleRuns.AcceptFits | server/terminal-manager.py:8440-8480 | The grid of an accepted request starts on itself and has at most 500 slots up to `until`; which grid that is, Schedules.AcceptExact says. |
| ScheduleRuns.OutcomeOnGrid | server/terminal-manager.py:4531-4539 | A re-armed loop waits for a later point of its own grid, after now and no later than `until`. |
| ScheduleHistory.RepeatsExact | server/terminal-manager.py:4553-4571 | However a pass ends, with its results saved, with a failed write or with the manager dying at any point, it leaves no entry waiting for a slot already delivered if and only if its results are saved or every entry it dealt with that still waits was too late to be delivered. |
| ScheduleHistory.LostEndKeeps | server/terminal-manager.py:4553-4571 | A pass whose results are lost, but which only skipped those who still wait, keeps what the bound and the history rest on. |
| ScheduleRuns.FailedWriteRepeats | server/terminal-manager.py:4568-4571 | The failing case: when the results of a delivery are not saved, the next pass delivers the same slot again. |
| ScheduleRuns.CancelledIsNeverRearmed | server/terminal-manager.py:8526-8575 | Whatever passes overlap, after a saved cancel the entry is never pending again, and only passes that had read it before can still deliver it. |
| ScheduleRuns.PendingCapped | server/terminal-manager.py:8486-8492 | In every run, overlapping passes included, no user has more than 20 pending entries. |
| ScheduleHistory.HistoryIsTrue | server/terminal-manager.py:4508-4551 | What the registry shows is true: a missed entry was never delivered, the last delivery of a sent one succeeded, a failed one was tried, and a pending loop's run count is the number of its deliveries. |
| ScheduleHistory.OutcomeTruthful | server/terminal-manager.py:4524-4551 | Each outcome of a delivery or of a skipped slot claims no more than what happened and counts it once. |
| Sweeper.Scheduler.Create | server/terminal-manager.py:8440-8500 | In place, a request is accepted exactly when it is acceptable, the cap is not reached and the write succeeds; the registry then has it waiting as it was asked for, and otherwise is untouched. |
| Sweeper.Scheduler.Cancel | server/terminal-manager.py:8550-8571 | In place, a pending loop that has fired is kept as stopped with what it says of its past, anything else removed, and no other entry changed; without a write nothing is. |
| Sweeper.Scheduler.RunDue | server/terminal-manager.py:4476-4572 | One pass in place: every entry that waits for a time that has come, no more than two hours ago, is delivered exactly once and nothing else is; every outcome is applied unless the write fails, and the run stays serial. |
| Sweeper.NoBacklog | server/terminal-manager.py:4514-4539 | After a pass no entry is armed for a time that has passed, however many slots were slept through. |
| Desktop.NamedExact | server/terminal-manager.py:3889-3916 | An instance is named for an app if and only if some close request found it holding the app and it held it, was live and was not evicted after every event since. |
| Desktop.NamedStillLists | server/terminal-manager.py:3889-3907 | Every save a named instance made since the naming request still listed the app. |
| Desktop.StepTargets | server/terminal-manager.py:6586-6645 | After a save, load or close an instance is named exactly when it holds the app and was named before or is asked now. |
| Desktop.BelievesWhatItHeard | server/terminal-manager.py:6583-6592 | What the registry says of an instance is true: it was last heard of at that time, and what it is said to have open, unless nothing, is what its own last save listed, with no reset since. |
| Desktop.HeardExact | server/terminal-manager.py:3910-3916 | A save or a load adds its instance and changes no other; up to 24 all are kept, of more 24 are, none seen earlier than one that is dropped. |
| DeskState.ClosesExact | shell/deskstate.js:56-68 | A client closes exactly the apps that it is named for and has open; anything malformed names nobody. |
| DeskState.HonourLetsGo | shell/deskstate.js:56-68 | After acting on a truthful reply, a client no longer has open an app it was named for. |
| DeskState.CloseConverges | server/terminal-manager.py:3889-3907 | If nobody asks again, then once every named instance has saved after honouring a reply, or stayed silent past the TTL until some request, the app has no targets left. |
| DeskState.RemembersNewest | shell/deskstate.js:46-50 | A client's remembered epoch is the newest of the replies it saw, however late or out of order they come. |
| DeskState.ClearExact | shell/deskstate.js:46-50 | A client clears on a reply exactly if its epoch is newer than every one it saw before, and it saw one. |
| DeskState.ClearsPerReset | shell/deskstate.js:46-50 | A client clears at most once per reset made since the oldest epoch it saw, and never on its first reply. |
| DeskState.EpochCountsResets | server/terminal-manager.py:6723-6735 | The epoch is the number of resets. |
| DesktopRegistry.PickNewest | server/terminal-manager.py:3910-3916 | The cap keeps the required number of instances, none seen earlier than one it drops. |
| DesktopRegistry.Registry.Prune | server/terminal-manager.py:3889-3907 | Pruning in place keeps exactly the targets that are live and still list the app. |
| DesktopRegistry.Registry.Save | server/terminal-manager.py:6583-6592 | A save in place is the save of the run. |
| DesktopRegistry.Registry.Load | server/terminal-manager.py:9617-9635 | A load in place refreshes the instance and answers with its own windows; without an instance nothing changes. |
| DesktopRegistry.Registry.Close | server/terminal-manager.py:6628-6643 | A close in place names exactly the live holders. |
| DesktopRegistry.Registry.Reset | server/terminal-manager.py:6726-6732 | A reset in place empties the registry and advances the epoch. |
| DiskParents.Parents | server/system_status.py:467-484 | For any finite graph of partitions and slaves, cycles and diamonds included, the search terminates with exactly the physical drives reachable from the name without passing through another drive. |
| DiskParents.Search | server/system_status.py:467-484 | A nested call with the shared visited set adds only reachable names, leaves nothing beneath its new names unvisited, and returns exactly the drives it newly visited. |
| DiskParents.SearchedAll | server/system_status.py:467-484 | A search that began with nothing visited has found every reachable drive and no other. |
| DiskParents.ClosedContainsPaths | server/system_status.py:467-484 | A set closed under the search's steps contains the end of every path that starts in it. |

## Left out

- MultipartIterator.IterFiles: the file name and content-disposition syntax is a parameter (any function of the head); a consumer that raises half-way is not modelled.
- MultipartIterator.HandleUpload: the 411 answer to a Content-Length of at most 0, file creation, ownership and the cleanup of partial files are not modelled.
- MultipartReaders.LimitedReader.Read: the socket is a sequence of bytes that answers with any non-empty prefix of what was asked for, whereas the server's buffered socket file answers short only when the connection ends; time-outs and errors of the socket are not modelled.
- Journal.CrashAtomicity: an atomic file replacement is all or nothing and survives the crash once it happened; loss of a directory entry that was not yet synced is not modelled, nor is a corrupt journal file.
- Journal.HandedOverExact: the hash of the new configuration stands for the configuration itself.
- WebSocketReader.ReadLoop: stopping because the relay was closed in the middle of a stream is part of RelaySpec.Enqueue and TerminalOutput, not of the loop; the handshake with ttyd is left out.
- RelayProtocol.OutputDelivery: assumes an honest client, whose `after` never exceeds its cursor and whose retried numbers carry the same data; the registry of relays, its limits and the idle reaper are left out.
- RelayProtocol.AcksMakeRoom: says that the client can make room, not that threads are scheduled fairly.
- AuthorityRuns.CredentialsWorkOnce: time does not run backwards and stands still within one operation, except that a consumption reads it twice; HMAC is a table of minted capabilities, hashes are injective, random ids new numbers.
- AuthorityRevocation.RevocationLasts: assumes the main session is always presented with its own expiry, and revoked again with no smaller one, as the expiry is part of the signed session; a revocation with a smaller expiry would shorten the tombstone.
- CommitMarker.StartedWithOneSecret: one user; ownership and mode checks of files and sockets, unit contents, the result of reset-failed and the main session's own revocation before the epoch moves are left out; an unreadable rewrite.json is one that is not there.
- MetricsRing.StoredExact: bucket times are unbounded; the file's 32-bit bucket field, torn writes and float32 rounding are not modelled, and bucket 0, which marks an unwritten slot, is excluded.
- MetricsRecorder.Recorder.Note: payload parsing and the network rates, which difference two counters, are parameters (the values by field); the per-device histories are further instances.
- MetricsRing.Window: rounding of the shown means and the choice of fields are left out.
- CodexScan.ResetNeverMovesBack: resets and window lengths are whole numbers; records in which they are something else are not modelled.
- RolloutScan.Scanner.LastRateLimit: JSON decoding and the two substring tests are one function of the line; a file that is rewritten at or above the cached offset without being append-only is excluded by Grown.
- TokenStats.Stats.Compute: extracting records from a transcript is a parameter, as are prices; the display figures computed from the totals (rolling windows, cache hit rate, rounding, number of sessions) and the 45-second memo are left out.
- ScheduleHistory.AtMostOncePerSlot: only for passes that do not overlap; the create handler can start a pass beside the sweeper's, and then a slot may be typed twice.
- ScheduleRuns.CancelledIsNeverRearmed: ids are never reused; the per-user scoping of a cancel is left out.
- Schedules.PendingOf: which finished entries a prune drops (by age and number) is any choice; text and terminal checks, the socket conversation with the terminal and its retries are left out.
- Desktop.NamedExact: targets are sets, not sorted lists; which instance survives among equally recent ones at the cap is any choice; the union of open apps and the other heartbeat fields are left out.
- DiskParents.Parents: reading sysfs is a given graph; identifying drives, mounts and filesystems is left out.
- The log token bucket, port blocks, score tables, range slicing, policy readers and other arithmetic helpers: easy members.
- HTTP handlers, nginx rendering, systemd units, PAM, OnlyOffice, ffmpeg, xpra, the update flow and its watchdog, sensors, and all browser user interface code: foreign effects.
