# Lightway: a verified model of its core engines

Lightway is a VPN protocol. This project models the parts of it where behaviour over whole runs matters, and proves
what they promise.

* **ExpressLane receive path** (`ReplayWindow`, `ShiftingWindow`, `Frames`, `Session`, `SessionClass`,
  `Interleaving`). The replay window is a ring bitmap after section 2 of RFC 6479; it is proved equal to a plain set
  of seen counters and to the multi-word shifting bitmap kept as its reference. The session adds framing, associated
  data and four key slots. It is modelled twice: as a class whose methods run one at a time, and as a step system in
  which any number of threads interleave the atomic steps of a receive with key installs and version changes.
* **Control protocols** (`KeyExchange`, `KeyNetwork`, `KeyHandover`, `Retransmission`, `GraceKeys`, `LaneStates`,
  `VersionNegotiation`, `EncodingRequests`, `PendingQueue`, `LossDetector`). Two endpoints exchange keys, or a client
  and a server exchange encoding requests, over a network in which every frame ever sent may be delivered any number
  of times, in any order, or never.
* **Packet arithmetic** (`OnesComplement`, `IncrementalChecksum`, `AddressRewrite`, `ClampMss`, `Segmentation`). The
  Internet checksum of section 2 of RFC 1071, its incremental update after [Eqn. 4] of RFC 1624, address rewrite and
  MSS clamp in place, and the splitting of a superpacket into wire packets.
* **Run-level machines** (`IoUringSlots` and `IoUring`, `Keepalive`, `TransitionDetector`).

States are read off runs with `Histories`: something holds when a step brought it about and no later step undid it.

Code that changes state is a class or an in-place method proved against a function of the old state; the theorems are
lemmas about those functions over every input or every run, and drivers (`KeyHandover.Drive`,
`EncodingRequests.Drive`, `LossDetector.Watch`, `IoUring.RunLoop`, `Keepalive.Watch`, `TransitionDetector.Watch`) put
the objects themselves through arbitrary runs. Foreign code is a parameter: the AEAD is a pair of functions with one
hypothesis predicate (`Aead.Ideal`), and `Aead.LogCipherIsIdeal` exhibits instances that meet it.

Where a promise fails, the exact condition under which it holds is proved, and a run or a packet that breaks it is
given:

* A real key is a sending key only after the peer has installed it, in a run and in everything the network can still
  make of it, exactly when every exchange started in the run could be built, or had no uninstalled real key staged, or
  faced a degraded peer (`KeyHandover.SendingKeyIsInstalled`; run: `KeyHandover.StagedFailureRun`).
* A request is transmitted at most six times exactly when every exchange started could be built, or announced the key
  already in use with nothing staged, or faced a degraded peer (`Retransmission.RetransmissionsBounded`; run:
  `Retransmission.FailedBuildRun`). With AEADs that can be built both promises hold in every run.
* A frame stays openable exactly while the pending request was taken up at most once
  (`GraceKeys.SealedStaysOpenable`); a config frame delivered twice evicts the grace key that is still in use
  (`GraceKeys.RedeliveryEvicts`; run: `GraceKeys.RedeliveryRun`).
* While the latest word of its peer is that it has no key, a side is not ready to send, except exactly when its own
  latest request is acknowledged once more, with both keys at hand, and nothing stops the lane after that
  (`LaneStates.ReadyThoughRefusedIff`; run: `LaneStates.ReadyThoughRefusedRun`).
* A client that gave up on a request, with its server set differently, stays apart from it until it asks again exactly
  when no request the server would still take up asks for what the client has
  (`EncodingRequests.GivingUpLeavesSidesApart`; runs: `EncodingRequests.LostAnswerSetsSidesApart` and
  `EncodingRequests.LateRequestBringsSidesTogether`).
* Rewriting an address there and back restores the packet unless a maintained checksum was 0xFFFF or a UDP checksum
  becomes zero on the way (`AddressRewrite.RewriteThereAndBack`; packet: `AddressRewrite.AllOnesIsNotRestored`). A
  datagram whose checksum was wrong may become "unchecked" (`AddressRewrite.RewriteKeepsTransportVerdict`; packet:
  `AddressRewrite.RejectedThenAccepted`).
* Clamping keeps a TCP checksum valid for an MSS option at an even offset, and at an odd one only when its two bytes
  move by amounts equal modulo 257 (`ClampMss.ClampKeepsVerdict`; packet: `ClampMss.OddOffsetBreaksChecksum`).
* The wire version is settled once a counter is out exactly when no other version has passed its check and is still to
  be stored (`Interleaving.RunVersionSettledIff`; run: `Interleaving.LateVersionChange`).
* Bytes written and queued are the accepted frames in order exactly when no answer of the TLS library that was used up
  is an error or application data (`PendingQueue.StreamIntactIffQuiet`).
* Before wire version 2 the flags of a frame are not authenticated (`SessionSpec.FlagsUnboundBeforeVersion2`).

## Model

| member | source | states |
|---|---|---|
| `ReplaySpec.VerdictFromArrivals` | lightway-expresslane/src/replay_window.rs:43-81 | a counter is accepted exactly when it is nonzero, was never presented before, and lies within 8192 of the largest ever presented; rejected arrivals leave no trace |
| `ReplaySpec.AcceptedAtMostOnce` | lightway-expresslane/src/replay_window.rs:43-81 | in every sequence of counters no counter is accepted twice |
| `ReplaySpec.RunShape` | lightway-expresslane/src/replay_window.rs:57-81 | after any sequence the highest is its maximum, everything seen was presented, and every nonzero counter presented within the window is seen |
| `ReplayWindowRing.Slide` | lightway-expresslane/src/replay_window.rs:62-76 | after an advance, no stale bit of an earlier lap survives in the window and no seen counter is forgotten |
| `ReplayWindowRing.ReplayWindow.constructor` | lightway-expresslane/src/replay_window.rs:14-21 | a new window has seen nothing |
| `ReplayWindowRing.ReplayWindow.WouldReject` | lightway-expresslane/src/replay_window.rs:43-54 | the ring answers as the set of seen counters does, and changes nothing |
| `ReplayWindowRing.ReplayWindow.Commit` | lightway-expresslane/src/replay_window.rs:57-81 | accepts exactly what the set of seen counters admits, adds exactly that counter, and leaves a rejected window alone |
| `ReplayWindowRing.ReplayWindow.ClearSlots` | lightway-expresslane/src/replay_window.rs:68-74 | the clearing loop empties the slots of the range and no other slot |
| `ReplayWindowRing.ReplayWindow.MarkSlot` | lightway-expresslane/src/replay_window.rs:78-80 | sets the counter's slot and no other |
| `ShiftingWindow.Shifting.SetBit` | lightway-expresslane/src/replay_window.rs:163-165 | sets one bit of the shifting bitmap and no other |
| `ShiftingWindow.Shifting.ShiftLeft` | lightway-expresslane/src/replay_window.rs:169-198 | the two-loop word shift is a shift of the whole 8192-bit number, in place |
| `ShiftingWindow.Shifting.Accept` | lightway-expresslane/src/replay_window.rs:199-221 | the shifting bitmap accepts exactly what the set of seen counters admits |
| `ShiftingWindow.MatchesTheShiftingReference` | lightway-expresslane/src/replay_window.rs:234-272 | on every stream of counters ring, shifting bitmap and specification give the same answers |
| `Aead.LogCipherIsIdeal` | lightway-expresslane/src/aead.rs:18-78 | the AEAD hypothesis has instances, over any keys, nonces and data |
| `Frames.AadBinds` | lightway-expresslane/src/session.rs:43-58 | equal associated data means equal session id, counter and format, and from version 2 equal flags |
| `Frames.AadLayout` | lightway-expresslane/src/session.rs:43-58 | the associated data byte for byte: session id in bytes 0 to 7, counter big-endian in 8 to 15, and from version 2 the flags in 16 and 17; nothing else |
| `Frames.U64AtIsBigEndian` | lightway-expresslane/src/session.rs:43-58 | a counter is read with its most significant byte first |
| `Frames.WireLayout` | lightway-expresslane/src/session.rs:347-351 | a frame on the wire byte for byte: counter at 0, nonce at 8, tag at 20, length at 36, flags at 38, ciphertext from 40 |
| `Frames.ParseEncoded` | lightway-expresslane/src/session.rs:365-389 | parsing an encoded frame followed by anything returns that frame |
| `Frames.ParsesIff` | lightway-expresslane/src/session.rs:365-389 | a buffer parses as a frame if and only if it begins with the encoding of that frame; anything else is too short |
| `SessionSpec.SealedFrameIsReceived` | lightway-expresslane/src/session.rs:267-300 | any plaintext up to 65535 bytes, sealed by one side, is received by the other with its flag, consuming exactly that frame, if the key is in either receive slot and the counter is new |
| `SessionSpec.SealedFrameLayout` | lightway-expresslane/src/session.rs:313-354 | what is sealed lies on the wire at those offsets, the flag in the top bit of its word, sealed under the sending key with the associated data of that counter and flags |
| `SessionSpec.SealRefusedIff` | lightway-expresslane/src/session.rs:313-354 | sealing is refused exactly for a plaintext of 65536 bytes or more, and else exactly without a real key |
| `SessionSpec.ReceivedIff` | lightway-expresslane/src/session.rs:365-437 | a frame that parses is received if and only if its counter is new and some held key opens it; otherwise the error tells which failed; the flag reported is the top bit of byte 38 |
| `SessionSpec.AcceptedWasSealed` | lightway-expresslane/src/session.rs:365-437 | whatever is accepted was sealed under a held, real key for this session id and counter |
| `SessionSpec.TamperedHeaderRejected` | lightway-expresslane/src/session.rs:391-423 | altering the counter, the session id or, from version 2, the flags of an accepted frame makes it rejected |
| `SessionSpec.FlagsUnboundBeforeVersion2` | lightway-expresslane/src/session.rs:43-58 | in version 1 flipping the flags flips what the receiver reports |
| `ExpresslaneSession.Session.constructor` | lightway-expresslane/src/session.rs:115-130 | a new session has no keys, no counters and an empty window |
| `ExpresslaneSession.Session.SetVersion` | lightway-expresslane/src/session.rs:149-155 | adopted exactly when no packet was sent, and nothing else changes |
| `ExpresslaneSession.Session.UpdateNextSelfKey` | lightway-expresslane/src/session.rs:167-174 | stages the key, or fails and keeps what was staged |
| `ExpresslaneSession.Session.PromoteSelfKey` | lightway-expresslane/src/session.rs:181-188 | the staged key, if any, becomes the sending key and the flag follows it |
| `ExpresslaneSession.Session.UpdatePeerKey` | lightway-expresslane/src/session.rs:192-201 | the key moves in and the current one to the grace slot, or nothing changes |
| `ExpresslaneSession.Session.ReserveCounter` | lightway-expresslane/src/session.rs:253-257 | hands out the incremented counter, wrapping at 2^64 |
| `ExpresslaneSession.Session.AppendToWire` | lightway-expresslane/src/session.rs:267-300 | appends exactly the sealed frame or nothing; an oversized payload burns no counter, any other failure one |
| `ExpresslaneSession.Session.EncryptInto` | lightway-expresslane/src/session.rs:313-354 | writes exactly the sealed frame at the front of the buffer and nothing behind it, with each error case |
| `ExpresslaneSession.EncryptFresh` | lightway-expresslane/src/session.rs:253-354 | a reserved counter followed by the in-place seal puts the frame of that counter in the buffer |
| `ExpresslaneSession.EncryptPathsAgree` | lightway-expresslane/src/session.rs:253-354 | with a freshly reserved counter both send paths give the same bytes, errors and state |
| `ExpresslaneSession.Session.Admitted` | lightway-expresslane/src/session.rs:391-434 | preview, open under the current then the grace key, commit and count; nothing changes unless all succeed |
| `ExpresslaneSession.Session.TryFromWire` | lightway-expresslane/src/session.rs:365-437 | a failed receive leaves buffer, window and counters unchanged; a successful one consumes exactly one frame and admits its counter |
| `ExpresslaneSession.Session.DecryptInto` | lightway-expresslane/src/session.rs:450-529 | agrees with the other receive path on outcome, plaintext, flag and window; a short buffer is refused before anything changes |
| `Interleaving.DeliveredAtMostOnce` | lightway-expresslane/src/session.rs:391-436 | in every interleaving of any number of threads at most one receive per counter succeeds |
| `Interleaving.CountsAddUp` | lightway-expresslane/src/session.rs:425-434 | the received count plus the receives between commit and count is the number of committed counters |
| `Interleaving.CommitsAreSequential` | lightway-expresslane/src/session.rs:425-432 | the window is the one a sequential run would have over the commits in lock order |
| `Interleaving.OnlyOpenedCountersCommitted` | lightway-expresslane/src/session.rs:408-432 | behind every committed counter is an open step of the run that opened a frame of that counter, bound to its version, under a real key in a receive slot of the session at that very step |
| `Interleaving.SlotsAreLastTwoInstalls` | lightway-expresslane/src/session.rs:192-201 | in every interleaving the two receive slots are the last two keys installed, the latest first, and the flag for a receive key says whether the latest is real |
| `Interleaving.ForgedCountersNeverCommitted` | lightway-expresslane/src/session.rs:391-432 | with an ideal AEAD behind every committed counter is an honest seal for this session and counter |
| `Interleaving.SecondCommitRejected` | lightway-expresslane/src/session.rs:425-432 | of two threads that both opened a frame of the same counter exactly one commits |
| `Interleaving.RaceIsReachable` | lightway-expresslane/src/session.rs:391-423 | two threads do reach that state, so the second check is needed |
| `Interleaving.UninterruptedReceive` | lightway-expresslane/src/session.rs:365-437 | the six steps of one thread, uninterrupted, are the sequential receive |
| `Interleaving.VersionSettledIff` | lightway-expresslane/src/session.rs:149-155 | with check and store as two steps, once a counter is out the version can no longer change, short of wrapping the counter, if and only if no other version is between its check and its store |
| `Interleaving.ClearedIff` | lightway-expresslane/src/session.rs:149-155 | in every run a version is between check and store exactly when a check of it, made while no counter was out, has not been followed by its store |
| `Interleaving.RunVersionSettledIff` | lightway-expresslane/src/session.rs:149-155 | so after any run with a counter out the version is settled if and only if every pending check was of the version in force |
| `Interleaving.LateVersionChange` | lightway-expresslane/src/session.rs:149-155 | a run that changes the version after a counter was handed out |
| `Interleaving.ReservedInOrder` | lightway-expresslane/src/session.rs:253-257 | fewer than 2^64 reservations by any threads hand out 1, 2, 3 and so on, none twice |
| `KeyExchange.Connection.RotateExpresslaneKey` | lightway-core/src/connection.rs:2303-2357 | the rotation changes the endpoint, sends and schedules as the transition function says, failed AEAD included, with the version in force or else the highest on the frame; it errs exactly when degraded |
| `KeyExchange.Connection.SetExpresslaneDegraded` | lightway-core/src/connection.rs:2360-2392 | degrading announces the sentinel key under a fresh counter, with the same choice of version |
| `KeyExchange.Connection.AcknowledgedBy` | lightway-core/src/connection.rs:2239-2258 | a matching acknowledgement promotes the staged key; any other changes nothing |
| `KeyExchange.Connection.TakeUpRequest` | lightway-core/src/connection.rs:2260-2293 | a request is ignored when degraded or unusable, otherwise installed, or the lane stopped when it has no key, and acknowledged; what that makes of the lane over runs is `LaneStates` |
| `KeyExchange.Connection.HandleExpresslaneConfig` | lightway-core/src/connection.rs:2219-2300 | the whole handler: refused offline, the version negotiated first, then the acknowledgement or the request with the rotation it triggers, and the versions on the frames that go out; an error exactly when a request's AEAD cannot be built |
| `KeyExchange.Connection.Negotiate` | lightway-core/src/connection.rs:2226-2237 | a differing version is adopted unless data has been sent; an unknown one counts as the highest known |
| `KeyExchange.Connection.ExpresslaneKeyShareTick` | lightway-core/src/connection.rs:2107-2167 | a tick is stale, satisfied, given up or sent once more as it was; refused offline or without support |
| `VersionNegotiation.BothSettleOnLower` | lightway-core/src/wire/expresslane_config.rs:10-26 | for builds of any two highest versions, under any loss, duplication and reordering, a side that has heard is at the lower of the two, a side that has not is at none, and no change of version is ever refused |
| `VersionNegotiation.HeardSidesAgree` | lightway-core/src/wire/expresslane_config.rs:10-26 | so two sides that have heard agree |
| `VersionNegotiation.NegotiatedIsKnown` | lightway-core/src/connection.rs:2226-2237 | a build settles only on a version it knows: the peer's where it knows that, its own highest otherwise |
| `VersionNegotiation.AnnouncedVersion` | lightway-core/src/connection.rs:2303-2357 | in every run the next announcement carries the highest version until the peer was heard, then the lower of the two |
| `VersionNegotiation.DataFixesVersion` | lightway-core/src/connection.rs:2226-2237 | from any state and whatever frames arrive, once data is out the version never changes |
| `VersionNegotiation.HandlerStamps` | lightway-core/src/connection.rs:2219-2300 | every frame the config handler puts out carries the version settled by the frame it handles |
| `VersionNegotiation.ReadyMeansHeard` | lightway-core/src/connection.rs:2180-2185 | in every run of the key exchange an endpoint ready to send data has taken up a request of its peer |
| `KeyNetwork.StepActs` | lightway-core/src/connection.rs:2107-2392 | every event at an endpoint announces, promotes, resends or leaves its own exchange, and takes up one request or none, with exactly these effects on keys, counters, ticks and frames in flight |
| `KeyNetwork.MailAlways` | lightway-core/src/connection.rs:2107-2392 | in every run the requests on their way carry counters already used and every acknowledgement answers a request |
| `LaneStates.LaneStep` | lightway-core/src/connection.rs:2107-2392 | every event puts the lane into use, out of use or into fall-back, and starts or gives up a rotation, exactly as what it delivers and the keys it finds say |
| `LaneStates.ActiveIff` | lightway-core/src/connection.rs:2219-2300 | in every run a lane is in use if and only if an acknowledgement or a usable key that completed its keys put it into use, and since then no peer without a key, no request given up and no fall-back took it out |
| `LaneStates.ReadyIff` | lightway-core/src/connection.rs:2180-2193 | a side is ready to send if and only if that holds and both its keys are real |
| `LaneStates.DegradedIff` | lightway-core/src/connection.rs:2360-2392 | in every run a side is degraded if and only if it was so at the start or fell back while in use |
| `LaneStates.UnsupportedIff` | lightway-core/src/connection.rs:2260-2293 | in every run a side waits for its client if and only if it did at the start and no request has arrived |
| `LaneStates.StampedIff` | lightway-core/src/connection.rs:2303-2357 | in every run a rotation time is on record if and only if a rotation was started and not given up since |
| `LaneStates.RotationDueIff` | lightway-core/src/connection.rs:2303-2357 | so at any point of any run a rotation asked for is started if and only if the lane is supported and undegraded and the interval is over or none was started since the last one given up |
| `LaneStates.RefusalStops` | lightway-core/src/connection.rs:2260-2293 | a request without a key takes the lane out of use at once |
| `LaneStates.ReadyAfterRefusal` | lightway-core/src/connection.rs:2239-2293 | a side that is ready although its peer said it has no key has since been delivered another key, or an acknowledgement of its own latest request |
| `LaneStates.ReadyThoughRefusedIff` | lightway-core/src/connection.rs:2239-2293 | while the latest word of its peer is that it has no key, a side is ready if and only if its own latest request was acknowledged again after that, with both keys at hand, and nothing has stopped the lane since |
| `LaneStates.ReadyThoughRefusedRun` | lightway-core/src/connection.rs:2239-2258 | a run in which a repeated acknowledgement alone makes a side ready again whose peer has said it has no key |
| `LaneStates.UnansweredIsResentFiveTimes` | lightway-core/src/connection.rs:2107-2167 | left unanswered a request goes out again at each of its next five ticks; the sixth takes the lane out of use, makes a rotation due and leaves no tick |
| `KeyHandover.SendingKeyIsInstalled` | lightway-core/src/connection.rs:2219-2357 | under any loss, duplication and reordering a real key is a sending key only after the peer installed that key for receiving, all along a run and in every continuation in which the side starts nothing, if and only if every exchange it started was safe |
| `KeyHandover.AlwaysCareful` | lightway-expresslane/src/session.rs:167-174 | every exchange is safe when AEADs can be built |
| `KeyHandover.BuiltKeysAreInstalled` | lightway-core/src/connection.rs:2219-2357 | so with AEADs that can be built the promise holds in every run |
| `KeyHandover.UnsafeStartBreaks` | lightway-core/src/connection.rs:2312-2345 | after any unsafe start the network can make an uninstalled key the sending key, without the side starting anything more |
| `KeyHandover.StagedFailureRun` | lightway-core/src/connection.rs:2312-2345 | a run from two new endpoints that sends under a key the peer never installed |
| `KeyHandover.Drive` | lightway-core/src/connection.rs:2107-2392 | two connection objects wired to the network end up where the step system says, whatever versions the frames carry, and each side whose exchanges were safe sends only under installed keys |
| `KeyHandover.Perform` | lightway-core/src/connection.rs:2107-2392 | one event at one connection object is one step of the system |
| `Retransmission.DegradedForever` | lightway-core/src/connection.rs:2180-2193 | from any state with a degraded endpoint, whatever follows, it stays degraded, starts no exchange and is never ready to send |
| `Retransmission.OneTickAlways` | lightway-core/src/connection.rs:2107-2167 | in every run, whatever fails, at most one tick waits for each counter |
| `Retransmission.RetransmissionsBounded` | lightway-core/src/connection.rs:2107-2167 | each request is transmitted at most once plus five times, all along a run and in every continuation in which the side starts nothing, if and only if every exchange it started builds |
| `Retransmission.BuiltRequestsAreBounded` | lightway-core/src/connection.rs:2107-2167 | so with AEADs that can be built no run transmits a request more than six times |
| `Retransmission.HopelessRequestRepeats` | lightway-core/src/connection.rs:2240-2258 | a request announced without a key is transmitted any number of times when its acknowledgement is repeated |
| `Retransmission.FailedStartIsHopeless` | lightway-core/src/connection.rs:2312-2345 | a failed start, once acknowledged, is such a request, also when an older key was staged |
| `Retransmission.UnbuiltStartRepeats` | lightway-core/src/connection.rs:2312-2345 | after any start that does not build, the network can have its request transmitted any number of times |
| `Retransmission.FailedBuildRun` | lightway-core/src/connection.rs:2312-2345 | a run from two new endpoints that transmits one request any number of times |
| `GraceKeys.SealedStaysOpenable` | lightway-expresslane/src/session.rs:190-201 | in every orderly run the receiver holds the sender's current key exactly when nothing is pending or the pending request was taken up at most once |
| `GraceKeys.OpenableWhenDeliveredOnce` | lightway-core/src/connection.rs:2275-2282 | with each request delivered at most once and rotations in turn, everything sealed under the current key can be opened |
| `GraceKeys.RedeliveryEvicts` | lightway-core/src/connection.rs:2275-2282 | after any orderly run, delivering the pending request a second time evicts the key in use |
| `GraceKeys.RedeliveryRun` | lightway-core/src/connection.rs:2275-2282 | a run from two new endpoints in which the key in use can be opened until the pending request arrives again |
| `GraceKeys.HeldUntilSecondInstall` | lightway-expresslane/src/session.rs:190-201 | in any run a key once installed sits in a receive slot if and only if at most one install came after its last |
| `GraceKeys.EarlierKeyOpenableIff` | lightway-expresslane/src/session.rs:408-423 | in any safe run a key that was the sending key at some step can be opened at the end if and only if at most one install came after its last and the current slot holds a real key |
| `GraceKeys.FramesInFlightStayOpenable` | lightway-expresslane/src/session.rs:190-201 | in an orderly run with each request delivered at most once, a key that was the sending key at any step can be opened at the end if and only if the receiver installed at most one newer request |
| `GraceKeys.FrameSealedEarlierOpens` | lightway-expresslane/src/session.rs:408-423 | in such a run, under an ideal AEAD, a frame sealed under the sending key of any step opens at the end to its plaintext as long as at most one newer request was installed |
| `EncodingRequests.Client.RequestEncoding` | lightway-core/src/connection.rs:2796-2835 | a request takes a fresh id and the flag asked for, is sent and gets a tick; refused in the cases the source names, changing nothing |
| `EncodingRequests.Client.ProcessEncodingResponse` | lightway-core/src/connection.rs:2730-2785 | only the response to the pending request is applied; refused without a codec, offline, on a stream or on a server |
| `EncodingRequests.Client.CodecTick` | lightway-core/src/connection.rs:2871-2938 | a tick resends the pending request or gives it up after five attempts; refused without a codec, offline, on a stream or on a server |
| `EncodingRequests.Server.ProcessEncodingRequest` | lightway-core/src/connection.rs:2660-2727 | a newer request is applied and answered, an old one is not applied, an unauthorised server answers off; without a codec nothing happens, and each refusal changes nothing |
| `EncodingRequests.ServerFollowsHighestRequest` | lightway-core/src/connection.rs:2660-2727 | under any loss, duplication and reordering an authorised server is set as the highest-id request ever delivered says |
| `EncodingRequests.RequestsAreAsAsked` | lightway-core/src/connection.rs:2796-2835 | in every run the requests sent are exactly one per ask, the k-th numbered k and carrying the flag of the k-th ask; what is pending is the latest of them |
| `EncodingRequests.AnsweredUnlessSuperseded` | lightway-core/src/connection.rs:2660-2727 | after any run an authorised server answers a request if and only if no later one has reached it, a repeated one again; an unauthorised one answers every request with off |
| `EncodingRequests.AskedAndAnswered` | lightway-core/src/connection.rs:2660-2835 | after any run one more ask and one delivery each way settle it on what was asked, or off when unauthorised |
| `EncodingRequests.OutstandingIff` | lightway-core/src/connection.rs:2871-2938 | however the network behaves a request is outstanding if and only if no answer to it has arrived and at most five of its ticks have passed, each of which sent it once more |
| `EncodingRequests.TicksToGiveUp` | lightway-core/src/connection.rs:2871-2938 | after n ticks of its own an unanswered request was sent again min(n, 5) times and is given up from the sixth on |
| `EncodingRequests.SettledSidesAgree` | lightway-core/src/connection.rs:2730-2785 | from applying the response to its latest request until it asks again the client and the server are both set as it was last asked |
| `EncodingRequests.UnauthorisedStaysOff` | lightway-core/src/connection.rs:2660-2727 | an unauthorised server never switches and a settled client is off |
| `EncodingRequests.ClientFrozen` | lightway-core/src/connection.rs:2730-2785 | a client that waits for nothing is changed by nothing until it asks again |
| `EncodingRequests.GivingUpLeavesSidesApart` | lightway-core/src/connection.rs:2871-2938 | from any state in which a client waits for nothing and differs from its server, they differ in every continuation without a new request if and only if no request the server would still take up asks for what the client has |
| `EncodingRequests.DeliveredAndGivenUp` | lightway-core/src/connection.rs:2871-2938 | in particular when the latest request had been delivered |
| `EncodingRequests.LostAnswerSetsSidesApart` | lightway-core/src/connection.rs:2871-2938 | a run that sets the sides apart for good: the request arrives, its answer is lost, six ticks pass |
| `EncodingRequests.LateRequestBringsSidesTogether` | lightway-core/src/connection.rs:2660-2727 | a run in which the request arrives only after the client gave up, and brings the sides together |
| `EncodingRequests.UndeliveredStillApart` | lightway-core/src/connection.rs:2871-2938 | a run in which the request never arrived and the sides stay apart all the same |
| `EncodingRequests.Drive` | lightway-core/src/connection.rs:2660-2938 | client and server objects wired to the network end up where the step system says, and when settled are both set as last asked |
| `EncodingRequests.Perform` | lightway-core/src/connection.rs:2660-2938 | one event at the two objects is one step of the system |
| `PendingQueue.Connection.SendFrameOrQueue` | lightway-core/src/connection.rs:1566-1600 | the loop of pops, writes and put-backs leaves the queue, the output and the error result that the drain function gives |
| `PendingQueue.Connection.WriteHead` | lightway-core/src/connection.rs:1581-1598 | one turn of the loop leaves what remains to be drained unchanged, or is the whole drain |
| `PendingQueue.AcceptedFoundRoom` | lightway-core/src/connection.rs:1566-1580 | of any frames sent in turn exactly those are accepted that find fewer than 64 frames queued on a stream, or none for inner TCP or on datagrams |
| `PendingQueue.DrainExactly` | lightway-core/src/connection.rs:1580-1598 | a drain in closed form: how many frames it gets through, the bytes it writes, the frames it loses, what stays queued and whether it errs, read off the answers of the TLS library |
| `PendingQueue.StreamIntactIffQuiet` | lightway-core/src/connection.rs:1566-1600 | bytes written followed by the queue are the accepted frames in order if and only if no answer used up is an error or application data; the queue stays within 64 or 1 |
| `PendingQueue.LostPerCostlyAnswer` | lightway-core/src/connection.rs:1580-1598 | a run loses exactly one frame for each such answer it used up |
| `PendingQueue.QuietRunLosesNothing` | lightway-core/src/connection.rs:1580-1598 | blocking and partial writes alone never lose a frame |
| `LossDetector.Monitor.CheckHealth` | lightway-core/src/connection.rs:1983-2094 | a reply changes strikes, missing counts, readings and the degraded flag as the observation function says; one that finds the lane unused is ignored |
| `LossDetector.DropsMeanLossy` | lightway-core/src/connection.rs:1953-1967 | drops are reported exactly for at least ten packets of which fewer than half arrived |
| `LossDetector.DeltaIsGrowth` | lightway-core/src/connection.rs:1983-2094 | the difference of two readings is how far the counter went, past a wrap-around too |
| `LossDetector.ObserveFollows` | lightway-core/src/connection.rs:1983-2094 | after every reply the strike counts, the missing counts and the previous readings are those of the history, until degraded, which is absorbing |
| `LossDetector.BucketIsWorstSuffix` | lightway-core/src/connection.rs:1969-1979 | the strike count is the maximum over all suffixes of windows of bad minus good |
| `LossDetector.BucketReachedIffBlock` | lightway-core/src/connection.rs:1969-1979 | a level is reached exactly when some contiguous block of windows has that excess |
| `LossDetector.DegradedIff` | lightway-core/src/connection.rs:2053-2094 | degrade has fired exactly when a block is bad by the threshold in some direction or readings were missing too often |
| `LossDetector.Watch` | lightway-core/src/connection.rs:1983-2094 | the same of the running monitor over every history of replies, those that find the lane unused leaving no trace |
| `OnesComplement.FilledVerifies` | lightway-core/src/gso.rs:194-217 | filling a zeroed even field with the checksum, or with the other zero, makes a receiver accept |
| `IncrementalChecksum.UpdateWordExact` | lightway-core/src/utils.rs:37-53 | the two end-around borrows never underflow and are one subtraction modulo 65535, except that 0xFFFF survives a change from 0xFFFF to 0 |
| `IncrementalChecksum.UpdateExact` | lightway-core/src/utils.rs:54-57 | the fold over any list of updates subtracts their growth modulo 65535 |
| `IncrementalChecksum.UpdateThereAndBack` | lightway-core/src/utils.rs:48-57 | undoing any update gives back the checksum with 0xFFFF normalised to zero |
| `AddressRewrite.AdjustTcpChecksum` | lightway-core/src/utils.rs:97-108 | adjusts the TCP checksum in place when a whole TCP header is present |
| `AddressRewrite.AdjustUdpChecksum` | lightway-core/src/utils.rs:110-125 | adjusts the UDP checksum in place unless it is zero |
| `AddressRewrite.AdjustIpv4Checksum` | lightway-core/src/utils.rs:127-149 | adjusts the header checksum and, on a first fragment, the transport checksum |
| `AddressRewrite.UpdatesFromIpv4Address` | lightway-core/src/utils.rs:66-83 | the updates pair the old and new halves of the address |
| `AddressRewrite.UpdateAddress` | lightway-core/src/utils.rs:151-179 | the in-place rewrite of source or destination equals the rewrite function; a short buffer is left alone |
| `AddressRewrite.RewriteFields` | lightway-core/src/utils.rs:151-179 | only the address and the maintained checksums change |
| `AddressRewrite.PartsHaveTransport` | lightway-core/src/utils.rs:97-149 | of a header and a TCP or UDP segment put together, the checksum maintained is at byte 16 of TCP or at byte 6 of UDP, and none exactly for a UDP checksum of zero |
| `AddressRewrite.RewriteOfParts` | lightway-core/src/utils.rs:151-179 | of such a packet the address, bytes 10 and 11 of the header and the two checksum bytes are rewritten and every other byte kept |
| `AddressRewrite.NoTransportNoChange` | lightway-core/src/utils.rs:127-149 | of a later fragment, or of another protocol, nothing past the header changes |
| `AddressRewrite.RewriteKeepsHeaderVerdict` | lightway-core/src/utils.rs:127-179 | a receiver's verdict on the IPv4 header is the same before and after |
| `AddressRewrite.RewriteKeepsTransportVerdict` | lightway-core/src/utils.rs:97-125 | a receiver accepts the transport part afterwards exactly when it did before or the update turned a UDP checksum into "unchecked" |
| `AddressRewrite.RejectedThenAccepted` | lightway-core/src/utils.rs:110-125 | a concrete datagram that is rejected before the rewrite and accepted after |
| `AddressRewrite.RewriteThereAndBack` | lightway-core/src/utils.rs:151-179 | there and back restores the packet byte for byte exactly when no maintained checksum was 0xFFFF and no UDP checksum becomes zero |
| `AddressRewrite.AllOnesIsNotRestored` | lightway-core/src/utils.rs:151-179 | a concrete packet that is not restored |
| `ClampMss.TcpClampMss` | lightway-core/src/utils.rs:181-216 | the in-place option walk finds, clamps and fixes as the functions say, on every buffer, and terminates |
| `ClampMss.ClampAt` | lightway-core/src/utils.rs:200-211 | the MSS branch writes the value and the checksum, or leaves the buffer alone |
| `ClampMss.FindMssFindsFirst` | lightway-core/src/utils.rs:196-214 | over well-formed options and zero padding the walk finds exactly the first MSS option |
| `ClampMss.ClampEffect` | lightway-core/src/utils.rs:198-211 | the option becomes the smaller of the two values and only it and the checksum change, or nothing when it was no larger |
| `ClampMss.ClampKeepsVerdict` | lightway-core/src/utils.rs:198-211 | a verifying segment still verifies exactly when the option is at an even offset or its bytes move alike modulo 257 |
| `ClampMss.OddOffsetBreaksChecksum` | lightway-core/src/utils.rs:198-211 | a concrete SYN with its option at an odd offset whose checksum breaks |
| `ClampMss.WellFormedNeverPanics` | lightway-core/src/utils.rs:181-216 | with well-formed options the clamp never panics and looks at exactly the first MSS option |
| `ClampMss.ClampOnWellFormed` | lightway-core/src/utils.rs:181-216 | a verifying SYN with well-formed options and its MSS option at an even offset gets the smaller value, changes nowhere else but in the checksum, and still verifies |
| `ClampMss.SynFromParts` | lightway-core/src/utils.rs:181-196 | of an IPv4 header, a TCP header, options and data put together, the clamp looks into the packet if and only if the SYN flag is set, whatever other flags are, and then at exactly the options |
| `ClampMss.ClampOfParts` | lightway-core/src/utils.rs:181-216 | of such a packet with well-formed options the first MSS option of a SYN or SYN-ACK is lowered, and without the flag or the option nothing changes |
| `ClampMss.FragmentOffsetIgnored` | lightway-core/src/utils.rs:181-196 | the fragment offset plays no part: whatever it is, the same bytes are found and the same outcome follows |
| `TransportChecksums.FilledTransportVerifies` | lightway-core/src/gso.rs:194-217 | the transport checksum makes the pseudo-header sum verify, for odd and even lengths and through the UDP substitution |
| `TransportChecksums.GsoNoneChecksum` | lightway-core/src/gso.rs:144-181 | completes the deposited partial in place, or leaves the buffer alone when the field does not fit |
| `TransportChecksums.CompletedIsFullChecksum` | lightway-core/src/gso.rs:144-181 | completing a folded pseudo-header partial gives the checksum of the full pseudo-header |
| `TransportChecksums.CompletedUdpIsChecked` | lightway-core/src/gso.rs:124-181 | over IPv4 and IPv6 a completed UDP checksum is never zero |
| `Segmentation.CalcHdrLen` | lightway-core/src/gso.rs:308-347 | an accepted packet is IPv4 with a whole header and TCP or UDP, and the length covers both headers |
| `Segmentation.HeaderLengthFromParts` | lightway-core/src/gso.rs:308-347 | of an IPv4 header, a TCP header with its options or a UDP header, and any payload put together, the header length is that of the two headers |
| `Segmentation.HeaderLengthIff` | lightway-core/src/gso.rs:308-347 | a header length within the packet is found if and only if the packet begins with two such headers of that length |
| `Segmentation.FixIpHeader` | lightway-core/src/gso.rs:414-428 | the id, length and checksum of the header in the buffer are this segment's and the rest is the template's |
| `Segmentation.FixTransport` | lightway-core/src/gso.rs:430-471 | sequence number, flags or UDP length and a verifying checksum, in place, or the exact error |
| `Segmentation.BuildSegment` | lightway-core/src/gso.rs:369-473 | the shared buffer ends up holding segment `idx` with its own id, length, sequence number, flags and checksums, or the exact error |
| `Segmentation.SendSuperpacket` | lightway-core/src/connection.rs:1255-1370 | the guards refuse exactly what they name; otherwise the outcome is that of the first segment that cannot be built, or every segment is sent with its share of the payload and within the MTU, and is the very segment when the checksum start is the header length |
| `Segmentation.SegmentsCoverPayload` | lightway-core/src/gso.rs:350-401 | the payloads concatenate to the original, all but the last have `gso_size` bytes and the last between one and that |
| `Segmentation.SegmentsOfParts` | lightway-core/src/gso.rs:350-473 | of headers and payload put together every segment keeps both headers whole, TCP options included, but for the fields that are its own, and the payloads of the segments concatenate to that payload |
| `Segmentation.BuildableIff` | lightway-core/src/gso.rs:369-473 | a segment can be built if and only if the checksum start is at least 20 and leaves room for the transport header of the claimed type, the ECN bit ignored |
| `Segmentation.AllBuildableIff` | lightway-core/src/connection.rs:1255-1370 | all segments can be built if and only if the last one can |
| `Segmentation.ConsecutiveIds` | lightway-core/src/gso.rs:417-428 | IP ids step by one modulo 2^16 |
| `Segmentation.ConsecutiveSequence` | lightway-core/src/gso.rs:432-447 | each TCP sequence number is the previous one plus its payload length modulo 2^32, and FIN and PSH are absent before the last segment |
| `Segmentation.SegmentAccepted` | lightway-core/src/gso.rs:414-471 | a receiver accepts the header and the transport checksum of every segment |
| `IoUringSlots.UserDataRoundTrip` | lightway-app-utils/src/iouring.rs:137-156 | the user-data encoding of slots is inverse to its decoding, both ways |
| `IoUringSlots.UserDataIsSigned` | lightway-app-utils/src/iouring.rs:137-156 | as a signed number a transmit slot is its index and a receive slot the complement of its index |
| `IoUringSlots.RunKeeps` | lightway-app-utils/src/iouring.rs:276-440 | after every event of every run: each slot is free or in flight, exactly once; a transmit slot owns a buffer exactly while in flight, and each slot in flight owns the very buffer the kernel was given; every receive slot has a sender, so the loop never panics; no receive buffer is owned twice, passed on twice or used again; packets leave the queue in order, each once |
| `IoUringSlots.SetupIsReading` | lightway-app-utils/src/iouring.rs:276-352 | at the start every receive slot is with the kernel, each with a buffer of its own, and every transmit slot is free |
| `IoUringSlots.ArrivedIsBrought` | lightway-app-utils/src/iouring.rs:119-128 | in every run what has arrived is exactly what the events brought, in order: packets put into the channel while open and not full, and packets received while waiting; the channel is closed if and only if its sender hung up |
| `IoUringSlots.ArrivalIsQueued` | lightway-app-utils/src/iouring.rs:119-128 | a packet put into the channel is the last in the queue |
| `IoUringSlots.WaitingReceiveIsSent` | lightway-app-utils/src/iouring.rs:361-373 | a packet received while waiting is in flight with that very buffer in the slot that was last free, or is counted as dropped |
| `IoUringSlots.ReceivedIsFilled` | lightway-app-utils/src/iouring.rs:396-425 | in every run what is passed on is exactly the buffers of the reads that brought bytes, in order of completion |
| `IoUringSlots.Trace` | lightway-app-utils/src/iouring.rs:276-440 | every list of events has a run, in which every slot index used is in bounds |
| `IoUringSlots.BufferStaysWhileInFlight` | lightway-app-utils/src/iouring.rs:173-186 | in every run, from its submission to its completion an operation keeps its buffer: not let go of, not replaced |
| `IoUringSlots.PassesOnWhatWasFilled` | lightway-app-utils/src/iouring.rs:396-425 | received bytes are passed on in the buffer the kernel filled, and the slot then owns one never used before |
| `IoUringSlots.CompletionReturnsOne` | lightway-app-utils/src/iouring.rs:390-440 | a completion takes exactly its own operation from the kernel |
| `IoUringSlots.CompletionsInBounds` | lightway-app-utils/src/iouring.rs:137-156 | every slot a completion decodes to, in every run, is in bounds |
| `IoUringSlots.OutstandingBounded` | lightway-app-utils/src/iouring.rs:276-352 | at most `ring_size` operations are outstanding at any point of any run |
| `IoUringSlots.PartitionSize` | lightway-app-utils/src/iouring.rs:314-340 | free and in-flight slots always add up to all slots |
| `IoUringSlots.PushedTxExactly` | lightway-app-utils/src/iouring.rs:190-226 | a round of transmit pushes in closed form: as many packets go out as there are packets, slots and room, oldest first, each into the last free slot; the first thing missing decides whether one more is dropped and whether the loop ends |
| `IoUringSlots.PushedRxExactly` | lightway-app-utils/src/iouring.rs:228-274 | a round of receive pushes in closed form: as many idle slots go out as there are and as there is room for, each with its own buffer; only a broken queue ends the loop |
| `IoUring.Task.constructor` | lightway-app-utils/src/iouring.rs:276-352 | at the start every receive slot is in flight and every transmit slot is free |
| `IoUring.Task.Arrive` | lightway-app-utils/src/iouring.rs:119-128 | a packet joins the channel unless it is full or abandoned |
| `IoUring.Task.PushOneTxEvent` | lightway-app-utils/src/iouring.rs:163-188 | stores the buffer in its slot exactly when the queue had room |
| `IoUring.Task.Transmit` | lightway-app-utils/src/iouring.rs:163-188 | the packet goes into the last free slot, which then owns it, or is dropped and the slot kept |
| `IoUring.Task.TransmitNext` | lightway-app-utils/src/iouring.rs:190-226 | the same of the packet at the front of the queue |
| `IoUring.Task.ReceiveWhileWaiting` | lightway-app-utils/src/iouring.rs:361-373 | the same of a packet received directly while nothing is queued and a slot is free |
| `IoUring.Task.PushTxEvents` | lightway-app-utils/src/iouring.rs:190-226 | the loop leaves slots, buffers, queue and outcome as the round of pushes says |
| `IoUring.Task.PushOneRxEvent` | lightway-app-utils/src/iouring.rs:246-268 | the last idle slot goes into flight with its own buffer |
| `IoUring.Task.PushRxEvents` | lightway-app-utils/src/iouring.rs:228-274 | the loop leaves slots and outcome as the round of pushes says |
| `IoUring.Task.CompleteRx` | lightway-app-utils/src/iouring.rs:396-425 | the filled buffer is passed on, the slot gets a new buffer and a new sender and is idle again; the loop ends exactly when no channel place is left |
| `IoUring.Task.CompleteTx` | lightway-app-utils/src/iouring.rs:426-437 | the buffer is dropped and the slot is free again |
| `IoUring.Task.Complete` | lightway-app-utils/src/iouring.rs:390-440 | a completion is taken to the slot it decodes to |
| `IoUring.Task.Count` | lightway-app-utils/src/iouring.rs:276-352 | the operations in flight, counted, are at most `ring_size` |
| `IoUring.Task.IsOutstanding` | lightway-app-utils/src/iouring.rs:137-156 | user data is in flight exactly when the buffers and the idle list say so |
| `IoUring.Task.Handle` | lightway-app-utils/src/iouring.rs:355-440 | one event at the task is one step of the system, with the slot it decodes to |
| `IoUring.RunLoop` | lightway-app-utils/src/iouring.rs:276-440 | the task put through any list of arrivals, pushes and completions ends up where the step system says; the counts returned are the operations in flight after each event, within `ring_size`, and the slots returned are those the completions decode to, in bounds |
| `Keepalive.Loop.Take` | lightway-client/src/keepalive.rs:156-244 | one turn of the loop changes state and timer as the transition function says |
| `Keepalive.Loop.SendKeepalive` | lightway-client/src/keepalive.rs:214-234 | a keepalive leads to `Pending` and arms the timeout unless it is running |
| `Keepalive.ArmedOnlyWhilePending` | lightway-client/src/keepalive.rs:136-245 | in every run the timeout is armed only in `Pending`, and `Waiting` occurs only in continuous mode |
| `Keepalive.ArmedSinceFirstUnanswered` | lightway-client/src/keepalive.rs:136-245 | the timeout runs exactly from the first keepalive with nothing clearing it since |
| `Keepalive.TimedOutMeansUnanswered` | lightway-client/src/keepalive.rs:136-245 | a timeout means a full timeout since a keepalive with no reply, activity, network change or suspend after it |
| `Keepalive.NothingSentWhileSuspended` | lightway-client/src/keepalive.rs:136-245 | after a suspend nothing is sent until a network change, a reply, or going online in continuous mode |
| `Keepalive.StateIsHistory` | lightway-client/src/keepalive.rs:136-245 | in every run the state is that of the history: `Pending` if and only if a keepalive is out with no reply, network change or suspend since, else `Suspended` if and only if nothing ended the last suspend, else `Needed` if and only if one was asked for and not sent since, else `Waiting` in continuous mode once started, else `Inactive` |
| `Keepalive.NetworkChangeIsFollowedUp` | lightway-client/src/keepalive.rs:186-197 | after a network change a keepalive can be sent at once until it is sent, a reply comes or the loop is suspended, and the timeout cannot end the loop meanwhile |
| `Keepalive.WhatCanHappen` | lightway-client/src/keepalive.rs:206-243 | which turns can come next, from the history alone: a keepalive when one is due, one an interval after the last turn when one is out or the loop rests, the timeout exactly when the first unanswered keepalive is that old |
| `Keepalive.RunIsTaken` | lightway-client/src/keepalive.rs:136-245 | every run is taken turn by turn when it is offered |
| `Keepalive.Watch` | lightway-client/src/keepalive.rs:136-245 | of any turns offered the running loop takes exactly those enabled when offered, up to the first that ends it; it returns that ending and the number of keepalives sent, and times out only unanswered |
| `TransitionDetector.Detector.OnAddr` | lightway-app-utils/src/network_change_monitor.rs:271-274 | an address event is recorded and emits exactly when the transition function fires |
| `TransitionDetector.Detector.OnRoute` | lightway-app-utils/src/network_change_monitor.rs:277-280 | the same of a route event |
| `TransitionDetector.Detector.TryEmit` | lightway-app-utils/src/network_change_monitor.rs:282-300 | an emission consumes the pair and stamps the time; anything else changes nothing |
| `TransitionDetector.EmitsIff` | lightway-app-utils/src/network_change_monitor.rs:259-301 | an event emits exactly when an address and a route event since the last emission are within the window and the cooldown is over |
| `TransitionDetector.EmissionsApart` | lightway-app-utils/src/network_change_monitor.rs:259-301 | two emissions are a cooldown apart and no event backs both |
| `TransitionDetector.Watch` | lightway-app-utils/src/network_change_monitor.rs:259-301 | the running detector emits exactly where the history says |

## Left out

- TLS and DTLS sessions and real ciphers are foreign code: only the poll result of a write and the AEAD's seal and
  open remain, as parameters.
- Sockets, TUN devices and the kernel side of io_uring: completions and submission-queue answers are inputs.
- Fragment reassembly, path MTU discovery, frame payload codecs, configuration, command line, DNS and route
  management, authentication and mobile bindings.
- Metrics, logging and event callbacks; clocks and random keys and nonces are inputs.
- IPv6 segmentation, which the header parser refuses before a segment is built.
- The 64-bit words of both bitmaps are sets of bit positions rather than bit vectors; shifts and masks are defined on
  them bit by bit.
- Packet accessors and checksums of the packet library are fixed byte offsets and the RFC 1071 sum.
- ExpressLane support is taken as the lane state alone; connection type and protocol version, fixed per connection,
  are not fields of the endpoint.
- Runs of the key exchange and of encoding requests are of online datagram connections with a codec; the classes model
  the refusals in every other case, and a refused call changes nothing.
- ExpresslaneSession.Session.SetVersion: check and store are one step here; as two atomic operations with other
  threads in between they are steps of `Interleaving`.
- Config counters do not wrap at 2^64 in the key exchange.
- Interleaving.CountsAddUp: fewer than 2^64 deliveries, beyond which the received count wraps.
- EncodingRequests.ServerFollowsHighestRequest: fewer than 2^64 requests, beyond which ids wrap.
- EncodingRequests.RequestsAreAsAsked: fewer than 2^64 requests, beyond which ids wrap.
- EncodingRequests.AnsweredUnlessSuperseded: fewer than 2^64 requests, beyond which ids wrap.
- EncodingRequests.AskedAndAnswered: fewer than 2^64 requests, beyond which ids wrap.
- EncodingRequests.SettledSidesAgree: fewer than 2^64 requests, beyond which ids wrap.
- LossDetector.DegradedIff: the loss ratio is an exact rational over one half rather than a 64-bit float.
- Segmentation.SegmentAccepted: for segments under 65536 bytes of unfragmented packets, since the length field wraps
  and a later fragment has no transport header.
- ClampMss.TcpClampMss: an MSS option with a length byte below four makes the original panic; the model returns that
  as an outcome.
- Segmentation.SendSuperpacket: the contents of segments are stated for a checksum start equal to the header length;
  for another one only outcome and sizes are.
- Interleaving.ReservedInOrder: fewer than 2^64 reservations, beyond which the counter wraps.
- Segmentation.BuildSegment: a checksum start beyond the segment makes the original panic; the model returns that as
  an error of its own.
- PendingQueue.StreamIntactIffQuiet: a failed write or one that yields application data is taken to have written
  nothing.
- ExpresslaneSession.Session.DecryptInto: the contents of the output buffer after a failure are unspecified, as
  documented.
