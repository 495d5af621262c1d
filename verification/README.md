# xrtc-server, modelled in Dafny

xrtc-server is a WebRTC selective forwarding server: signaling workers take requests off TCP, an RTC server hands
them to RTC workers, and every peer connection runs ICE, DTLS and SRTP over UDP. This project models the parts of it
that are hard to get right and proves what they promise. Each protocol is a state machine over its events, and the main
results are about every run of it. Code that updates objects in place is a class whose methods are proved equal to
the functions that the results are about. `dafny verify dfyconfig.toml` checks everything.

| files | component |
|---|---|
| `SpscQueue`, `LockFreeQueue` | the lock-free queue: single memory accesses in any interleaving; the linked nodes on the heap |
| `ThreadHandOff`, `WorkerWakeUp` | mutex queue, pipe tokens and routing between signaling workers, RTC server and RTC workers; a worker's lock-free queue with its wake-ups |
| `Bytes`, `StunCodec`, `StunRoundTrip`, `StunPieces`, `StunMessage` | STUN messages (sections 6, 15, 15.4 and 15.5 of RFC 5389) |
| `IceSelection`, `IceScheduler`, `IceController` | ordering, switching and ping scheduling of ICE connections |
| `IceConnection`, `IceChannel`, `IceTransportChannel` | liveness of a connection; selection and state of a channel |
| `Priority`, `Aggregation` | RFC 5245 priorities; states of agent and peer connection |
| `DtlsRecords`, `DtlsEndpoint`, `DtlsStart`, `DtlsTransport` | DTLS start race, record walk, SRTP key lifetime |
| `SdpText`, `SsrcCodec`, `SsrcRoundTrip`, `RemoteSdp`, `SsrcText`, `SsrcLoops` | SSRC lines (RFC 5576) printed into an SDP, and the line rules that read them back |
| `SignalingFraming`, `UdpSendQueue` | request reassembly on TCP; the UDP send queue |

Properties that the code does not have as one would expect them are stated with the exact condition:

- Tracks survive printing and parsing exactly if no id, cname or stream id contains `m=`, `a=ice-ufrag`, `a=ice-pwd`
  or `a=fingerprint`: the parser searches whole lines (`RemoteSdp.RoundTripExactly`, `MediaPatternIsLost`).
- A pair priority is that of RFC 5245 exactly if both priorities are below 2^31, since twice the larger one is computed
  on 32 bits; beyond that the order breaks (`Priority.PairFormulaExactly`, `PairOrderBreaks`).
- The signaling handler is given a pointer and parses on behind the body, so whether a request is accepted depends on how the
  stream was cut into reads, exactly unless its answer is the same for every beginning of what follows
  (`SignalingFraming.ChunkingIrrelevantExactly`, `ReadsMatterForText`, `NulInBodyDecides`).
- The worker is caught in the reassembly loop, handling one request again and again, exactly if the request is accepted when it
  is complete and again when 65500 bytes have arrived behind it (`SignalingFraming.DivergesExactly`, `StuckForEver`,
  `ThirdRead`).
- When the selected connection is destroyed, another is selected exactly if the best one left can send and its RTT is ten
  milliseconds lower: the controller keeps its own reference to the destroyed connection, although the comment at
  src/ice/ice_transport_channel.cpp:232-236 speaks of a new selection (`IceChannel.FailoverExactly`,
  `WritableIsPassedOver`).
- Validating MESSAGE-INTEGRITY reads past the message exactly if fewer than 24 bytes are left where it starts; messages that
  pass the fingerprint check and are read do so (`StunRoundTrip.OverrunExactly`, `FingerprintedOverrunExactly`,
  `EmptyIntegrityOverruns`).
- A silent writable connection is given the window of its fifth ping exactly while the end of it is below 2^31, since it
  passes through an int (`IceConnection.SilentWritableExactly`, `DeadlineExactly`).
- The scheduler's two sets stay a partition of the connections exactly if no check reads a destroyed connection, through
  the controller's stale reference, as writable and due (`IceScheduler.RunKeepsInvExactly`, `StaleCheckBreaks`).

## Model

| member | source | states |
|---|---|---|
| `SpscQueue.NextKeepsInv` | src/base/lock_free_queue.h:193-246 | every single read or write of either thread, with addresses reused after delete, touches no freed node and keeps the chain, no-leak and pointer-order invariant |
| `SpscQueue.ExecKeepsInv` | src/base/lock_free_queue.h:193-246 | the same for every interleaving of any length |
| `SpscQueue.QueueIsCorrect` | src/base/lock_free_queue.h:193-279 | in every interleaving the values returned are a prefix of those produced, `_size` is within 1 of the number of linked nodes after divider, and exact when both threads are idle |
| `SpscQueue.ProduceIsWaitFree` | src/base/lock_free_queue.h:193-208 | produce returns within a bounded number of its own steps, whatever the consumer does meanwhile |
| `SpscQueue.CleanupIsBounded` | src/base/lock_free_queue.h:203-207 | one clean-up loop frees at most last - first nodes even while the consumer advances |
| `SpscQueue.ProduceReclaims` | src/base/lock_free_queue.h:203-207 | whatever the consumer does meanwhile, when produce returns every node consumed before the call has been freed |
| `SpscQueue.Destroy` | src/base/lock_free_queue.h:158-166 | the destructor frees every node left, each once, and ends with an empty heap |
| `LockFreeQueue.Queue.constructor` | src/base/lock_free_queue.h:143-146 | an empty queue on one dummy node |
| `LockFreeQueue.Queue.Append` | src/base/lock_free_queue.h:193-199 | appends one value at the end, moving nothing else |
| `LockFreeQueue.Queue.Reclaim` | src/base/lock_free_queue.h:203-207 | drops exactly the consumed nodes, contents unchanged |
| `LockFreeQueue.Queue.Produce` | src/base/lock_free_queue.h:193-208 | contents grow by the value, and exactly the consumed nodes are gone |
| `LockFreeQueue.Queue.Consume` | src/base/lock_free_queue.h:231-246 | returns the oldest value, or nothing exactly if the queue is empty |
| `ThreadHandOff.NoWakeWithoutMessage` | src/server/rtc_server.cpp:142-244 | in every interleaving of any number of signaling workers, queue length is tokens plus producers between push and notify, so a wake-up never pops null; the same between server and each RTC worker |
| `ThreadHandOff.StreamOrderKept` | src/server/rtc_server.cpp:199-244 | if the certificate check never fails, what the stream's worker took, then its queue, then what the server holds is exactly the stream's pushed sequence; in any case the worker has what was accepted; no other worker ever sees the stream |
| `ThreadHandOff.LogIsDecided` | src/server/rtc_server.cpp:221-243 | over every run each message popped is handed on exactly if the certificate check then succeeds and it is routed to a worker there is |
| `ThreadHandOff.StreamOrderByHash` | src/server/rtc_server.cpp:199-276 | the same at the worker the CRC32 of the stream name selects |
| `ThreadHandOff.OneWorkerPerStream` | src/server/rtc_server.cpp:268-276 | splitting a sequence by worker splits it by stream name |
| `ThreadHandOff.GetWorker` | src/server/rtc_server.cpp:268-276 | the worker chosen exists; none if the counts disagree or there is none |
| `WorkerWakeUp.WakeUpFindsMessage` | src/server/rtc_worker.cpp:93-123 | in every interleaving of the single memory accesses of produce and consume with pipe writes and reads, pop_msg never returns false to a woken worker, messages come out in order, and between messages there is one token for each message waiting |
| `WorkerWakeUp.ExecKeepsInv` | src/server/rtc_worker.cpp:93-123 | the queue holds one message for each token, one that runs ahead of its token and one that lags behind |
| `ThreadHandOff.RtcServer.PushMsg` | src/server/rtc_server.cpp:142-145 | appends to the queue: the push step of the interleavings |
| `ThreadHandOff.RtcServer.PopMsg` | src/server/rtc_server.cpp:147-157 | takes the oldest message, null exactly if there is none |
| `ThreadHandOff.RtcServer.SendRtcMsg` | src/server/rtc_server.cpp:159-162 | pushes, then one more token |
| `ThreadHandOff.RtcServer.WriteToken` | src/server/rtc_server.cpp:131-134 | one more token: the notify step |
| `ThreadHandOff.RtcServer.WakeUp` | src/server/rtc_server.cpp:184-205 | a token less and the oldest message: the wake step, with null exactly where that has it |
| `StunRoundTrip.SealedMessageRoundTrips` | src/ice/stun.cpp:68-456 | for any HMAC and CRC32, adding integrity and fingerprint and writing yields bytes that the fingerprint check accepts, from which read recovers type, id and exactly the recognised attributes in order, and whose integrity validates under the same key |
| `StunRoundTrip.ReadAfterWrite` | src/ice/stun.cpp:345-445 | read of what write emits is the message with the unrecognised attributes left out |
| `StunRoundTrip.FingerprintOkExactly` | src/ice/stun.cpp:68-113 | the check accepts exactly the aligned strings with the cookie that end in the FINGERPRINT of everything before it |
| `StunRoundTrip.AddAttrKeepsReady` | src/ice/stun.cpp:447-456 | the length field stays the padded size of the attributes that write emits |
| `StunRoundTrip.IntegrityAdded` | src/ice/stun.cpp:190-222 | the HMAC added covers the header, with a length that counts MESSAGE-INTEGRITY, and all earlier attributes |
| `StunRoundTrip.SignedBytesAgree` | src/ice/stun.cpp:288-328 | the bytes the validator hashes are those the sender hashed, whatever follows MESSAGE-INTEGRITY |
| `StunRoundTrip.IntegrityAccepted` | src/ice/stun.cpp:242-334 | a message signed with a key validates with it, with any aligned bytes after MESSAGE-INTEGRITY |
| `StunRoundTrip.IntegrityAcceptedExactly` | src/ice/stun.cpp:242-334 | a message with any twenty bytes as MESSAGE-INTEGRITY is accepted under a key exactly if they are the HMAC the sender computes |
| `StunRoundTrip.AcceptedExactly` | src/ice/stun.cpp:242-334 | of all byte strings exactly those are accepted that are as long as they say and carry, in their first MESSAGE-INTEGRITY, the HMAC of what stands before it |
| `StunPieces.DecodeExactly` | src/ice/stun.cpp:345-422 | read accepts exactly a header with the RTP bit clear and the right length followed by whole attributes |
| `StunPieces.HeaderOnTheWire` | src/ice/stun.cpp:426-434 | type, length, cookie and id in network order |
| `StunPieces.FingerprintOnTheWire` | src/ice/stun.cpp:115-137 | type, length and the CRC32 under the fixed XOR |
| `StunPieces.MappedAddressComesBack` | src/ice/stun.cpp:685-737 | family, port and address of XOR-MAPPED-ADDRESS come back when the cookie is taken off |
| `StunPieces.ValuesOnTheWire` | src/ice/stun.cpp:786-789 | 64-bit numbers in network order; class, number and reason of an error |
| `StunPieces.RecognisedTypes` | src/ice/stun.cpp:464-475 | the attribute types read knows, by number |
| `StunPieces.RtpBitIsBit11` | src/ice/stun.cpp:357-358 | the bit that marks RTP |
| `StunRoundTrip.FindSkips` | src/ice/stun.cpp:262-286 | the scan for MESSAGE-INTEGRITY steps over every other written attribute, padding included |
| `StunRoundTrip.OverrunExactly` | src/ice/stun.cpp:262-333 | for every written message the comparison runs past it exactly if fewer than 24 bytes are left where its first MESSAGE-INTEGRITY starts, and read accepts it |
| `StunRoundTrip.FingerprintedOverrunExactly` | src/ice/udp_port.cpp:145-162 | of the messages that pass the fingerprint check and are read, the comparison runs past exactly those with fewer than 16 bytes between the start of MESSAGE-INTEGRITY and the FINGERPRINT |
| `StunRoundTrip.EmptyIntegrityOverruns` | src/ice/ice_connection.cpp:124-129 | a binding response with an empty MESSAGE-INTEGRITY and a FINGERPRINT is such a message |
| `Bytes.Xor32Twice` | src/ice/stun.cpp:105-137 | the XOR of the fingerprint is undone by the XOR of the check |
| `Bytes.XorIsBitwise` | src/ice/stun.cpp:105-137 | each bit of the XOR is set exactly if one of the two bits is |
| `StunMessage.ValidateFingerprint` | src/ice/stun.cpp:68-113 | the check characterised by FingerprintOkExactly |
| `StunMessage.LocateIntegrity` | src/ice/stun.cpp:262-286 | position of the first MESSAGE-INTEGRITY that the scan meets, none if it leaves the message first |
| `StunMessage.ValidateIntegrity` | src/ice/stun.cpp:242-334 | true exactly if the twenty bytes compared, past the message if it is too short, are the HMAC of the patched prefix |
| `StunMessage.StunMessage.AddAttribute` | src/ice/stun.cpp:447-456 | appends and grows the length by the padded size |
| `StunMessage.StunMessage.Write` | src/ice/stun.cpp:426-445 | succeeds exactly if every attribute can be written, and then emits header and attributes in order |
| `StunMessage.StunMessage.WriteAttributes` | src/ice/stun.cpp:436-444 | the loop appends every attribute with its padding |
| `StunMessage.StunMessage.AddIntegrity` | src/ice/stun.cpp:190-222 | placeholder, write, HMAC, copy back: the message of IntegrityAdded |
| `StunMessage.StunMessage.Fingerprint` | src/ice/stun.cpp:115-137 | placeholder, write, CRC32, XOR |
| `StunMessage.StunMessage.Read` | src/ice/stun.cpp:345-422 | the decoded message, or failure on the same inputs with every field as far as reading got |
| `StunCodec.ReadIntoDecodes` | src/ice/stun.cpp:345-422 | what a successful read leaves is the decoded message, whatever the object held before |
| `StunMessage.StunMessage.ReadAttributes` | src/ice/stun.cpp:394-421 | the attribute loop with padding and skipped unknown types: success, and the attributes read before any fault |
| `StunMessage.StunMessage.ReadAttribute` | src/ice/stun.cpp:397-418 | one attribute by its type, the 16-bit padded length of an unknown one included |
| `StunMessage.StunMessage.ValidateMessageIntegrity` | src/ice/stun.cpp:158-180 | no integrity, accepted or bad, remembered with the password |
| `IceSelection.BetterIsLexicographic` | src/ice/ice_controller.cpp:28-91 | the comparison with RTT fallback is the lexicographic order on write state, receiving, priority, RTT |
| `IceSelection.BetterIsStrictWeakOrder` | src/ice/ice_controller.cpp:83-91 | what std::stable_sort demands of it |
| `IceSelection.StableSortSorts` | src/ice/ice_controller.cpp:83-91 | no connection stands after a worse one |
| `IceSelection.StableSortIsStable` | src/ice/ice_controller.cpp:83-91 | ties keep their order |
| `IceSelection.SwitchTarget` | src/ice/ice_controller.cpp:98-110 | a target is registered, can send, is another connection and at least 10 ms faster than the selected one |
| `IceSelection.SwitchTargetExactly` | src/ice/ice_controller.cpp:82-111 | there is a target exactly if some best connection can send, is not selected, and beats the selected one, if any, by 10 ms |
| `IceSelection.SwitchTargetIsBest` | src/ice/ice_controller.cpp:82-111 | no registered connection is better than the target |
| `IceSelection.SwitchesLowerRtt` | src/ice/ice_controller.cpp:82-111 | with fixed RTTs every switch lowers the selected RTT by 10, however write states and connections change |
| `IceSelection.NoPingPong` | src/ice/ice_controller.cpp:82-111 | a connection that was left is never selected again, and at most rtt / 10 switches occur |
| `IceScheduler.StepKeepsInv` | src/ice/ice_controller.cpp:113-311 | every step but a check that reads a destroyed connection as due keeps the two sets a partition of the connections with every unpinged one last pinged no later than every pinged one |
| `IceScheduler.StaleCheckBreaks` | src/ice/ice_controller.cpp:113-117 | such a check marks the destroyed connection as pinged, and the partition is lost |
| `IceScheduler.RunKeepsInvExactly` | src/ice/ice_controller.cpp:113-311 | over every run the invariant holds throughout exactly if no check reads a destroyed connection as writable and due |
| `IceScheduler.RunKeepsInv` | src/ice/ice_controller.cpp:113-311 | the invariant in every state of every such run |
| `IceScheduler.PickIsOldest` | src/ice/ice_controller.cpp:252-311 | the round robin refines oldest-first: the pick has the least last ping of all pingable connections, and nothing is picked only if nothing is pingable, whatever a stale reference reads as |
| `IceScheduler.PingIsPaced` | src/ice/ice_controller.cpp:214-235 | consecutive pings of a channel are 43 ms apart, and 475 ms when the selected connection works both ways and every connection has had three pings |
| `IceScheduler.PingRateBounded` | src/ice/ice_transport_channel.cpp:448-491 | in every run T milliseconds hold at most T / 43 + 1 pings |
| `IceScheduler.PingRespectsInterval` | src/ice/ice_controller.cpp:181-354 | a connection pinged in a strong channel has waited 48 ms before its third ping, then 2500 ms if it is stable and 900 ms otherwise |
| `IceScheduler.WaitingIsPinged` | src/ice/ice_controller.cpp:214-285 | pings do go out: 43 ms after the last one in a channel that is not up or has a new connection, 475 ms after it in every channel, if some connection is waiting |
| `IceScheduler.SelectedIsPinged` | src/ice/ice_controller.cpp:252-257 | a writable selected connection that has waited its time is the one pinged |
| `IceScheduler.PingsAreSpread` | src/ice/ice_controller.cpp:252-311 | while one connection waits, all pings go to different connections |
| `IceScheduler.EveryConnectionIsPinged` | src/ice/ice_controller.cpp:252-311 | in a weak channel with k credentialed connections and none writable and selected, k pings reach every one |
| `IceController.IceController.AddConnection` | src/ice/ice_controller.cpp:164-167 | listed and unpinged |
| `IceController.IceController.MarkConnectionPinged` | src/ice/ice_controller.cpp:113-117 | moved from unpinged to pinged |
| `IceController.IceController.OnConnectionDestroyed` | src/ice/ice_controller.cpp:125-136 | gone from the list and both sets, the selection untouched |
| `IceController.IceController.HasPingable` | src/ice/ice_controller.cpp:145-154 | true exactly if some connection is pingable |
| `IceController.IceController.FindNextPingableConnection` | src/ice/ice_controller.cpp:252-285 | the selected connection if writable and due, otherwise a least recently pinged pingable one, after swapping the sets if needed |
| `IceController.IceController.MostOverdue` | src/ice/ice_controller.cpp:273-311 | a pingable unpinged connection with the least last ping, none if there is none |
| `IceController.IceController.SelectConnectionToPing` | src/ice/ice_controller.cpp:214-235 | both rate limits and the next interval |
| `IceController.IceController.SortAndSwitchConnection` | src/ice/ice_controller.cpp:82-111 | sorts stably; returns a best connection exactly if one is worth switching to |
| `IceController.IceController.Sort` | src/ice/ice_controller.cpp:83-91 | the stable sort as a loop |
| `IceConnection.StaysWritable` | src/ice/ice_connection.cpp:246-276 | once a response has made it writable, a connection whose every later ping is answered within 5000 ms is writable and alive after every later event |
| `IceConnection.SilentInitialTimesOut` | src/ice/ice_connection.cpp:264-273 | without responses a new connection is destroyed exactly by the first update more than 15000 ms after its first ping |
| `IceConnection.SilentWritableDegrades` | src/ice/ice_connection.cpp:254-262 | a writable one that falls silent stops being writable exactly by the first update with five pings unanswered, 5000 ms after the first and past the deadline of the fifth |
| `IceConnection.ReceivingExactly` | src/ice/ice_connection.cpp:417-433 | after an update it is receiving exactly if the last response is newer than the last ping or a sign of life came less than 2500 ms ago |
| `IceConnection.RttIsSmoothed` | src/ice/ice_connection.cpp:465-483 | the first sample as it is, then three parts old and one part new |
| `IceConnection.WindowIsClamped` | src/ice/ice_connection.cpp:247-252 | twice the RTT, between 100 ms and a minute |
| `IceConnection.SilentWritableTimesOut` | src/ice/ice_connection.cpp:213-276 | a writable one that falls silent is destroyed exactly by the first update past both 15000 ms and the deadline of its fifth ping, and is writable or unreliable until then |
| `IceConnection.SilentWritableExactly` | src/ice/ice_connection.cpp:213-276 | over every silent run the connection is destroyed exactly by the first update past 15000 ms with five pings and past the fifth one's window, where the window counts only while its end is below 2^31 |
| `IceConnection.DeadlineExactly` | src/ice/ice_connection.cpp:218-219 | the deadline is the end of the clamped window exactly if that is below 2^31, and lies before the ping otherwise |
| `IceConnection.SchedulerSees` | src/ice/ice_connection.cpp:357-366 | a ping of the connection is the ping of the scheduler's model, and everything else leaves the ping times alone |
| `IceConnection.SelectionSees` | src/ice/ice_controller.cpp:64-67 | writable, ready to send and timed out mean the same to the controller |
| `IceConnection.Connection.SendPing` | src/ice/ice_connection.cpp:357-366 | one more unanswered ping |
| `IceConnection.Connection.ReceivedPingResponse` | src/ice/ice_connection.cpp:465-483 | smoothed RTT, no unanswered pings, receiving refreshed, writable |
| `IceConnection.Connection.RefreshReceiving` | src/ice/ice_connection.cpp:417-433 | receiving exactly after a response newer than the last ping or traffic within 2500 ms |
| `IceConnection.Connection.TooManyPingsFailed` | src/ice/ice_connection.cpp:213-220 | the expected time passes through a 32-bit int |
| `IceConnection.Connection.TooLongWithoutResponse` | src/ice/ice_connection.cpp:228-234 | age of the oldest unanswered ping |
| `IceConnection.Connection.Refresh` | src/ice/ice_connection.cpp:246-276 | both degradations in one call; ends at destruction |
| `IceChannel.StepKeepsInv` | src/ice/ice_transport_channel.cpp:195-405 | every add, change, destroy and refresh keeps the selection registered and the reported state true to it |
| `IceChannel.ExecKeepsInv` | src/ice/ice_transport_channel.cpp:195-405 | after every run the selected connection is null or registered, k_connected holds exactly if it is writable, receiving exactly if some connection is, and the state signals never repeat, never include k_new, never go to k_checking after k_connected, nor to k_disconnected before it |
| `IceChannel.StateMeaning` | src/ice/ice_transport_channel.cpp:293-350 | each reported state characterised by the connections, the selection and the history, without the order of the tests |
| `IceChannel.NoWayBack` | src/ice/ice_transport_channel.cpp:324-350 | over any run, no return to k_new once left and none to k_checking once connected |
| `IceChannel.SortSwitchesExactly` | src/ice/ice_transport_channel.cpp:360-378 | while the reference is not stale, sorting moves the selection exactly if some connection is worth switching to, and to such a one |
| `IceChannel.PointersAgree` | src/ice/ice_transport_channel.cpp:386-405 | channel and controller agree on the selection in every run that destroys no selected connection |
| `IceChannel.FailoverExactly` | src/ice/ice_transport_channel.cpp:237-249 | destroying the selected connection selects another exactly if the best one left can send and is 10 ms faster, and leaves the controller's reference stale otherwise |
| `IceChannel.NoFailover` | src/ice/ice_transport_channel.cpp:237-249 | with no faster connection left the channel ends unconnected and unselected, even if all are writable |
| `IceChannel.PassedOver` | src/ice/ice_transport_channel.cpp:237-249 | every run in which one connection becomes writable, then another less than 10 ms faster, and the first is destroyed, ends with nothing selected and k_disconnected beside the writable one |
| `IceChannel.WritableIsPassedOver` | src/ice/ice_transport_channel.cpp:237-249 | such a run, with RTTs 50 and 45 |
| `IceTransportChannel.IceTransportChannel.AddConnection` | src/ice/ice_transport_channel.cpp:195-206 | registered with the controller, and remembered |
| `IceTransportChannel.IceTransportChannel.SetReceiving` | src/ice/ice_transport_channel.cpp:257-265 | the aggregate receiving flag, signalled exactly if it changed |
| `IceTransportChannel.IceTransportChannel.SetWritable` | src/ice/ice_transport_channel.cpp:273-285 | the flag, whether it was ever set, and a signal exactly if it changed |
| `IceTransportChannel.IceTransportChannel.HasReceiving` | src/ice/ice_transport_channel.cpp:297-303 | true exactly if some registered connection receives |
| `IceTransportChannel.IceTransportChannel.ComputeTransportState` | src/ice/ice_transport_channel.cpp:324-350 | the state of the registered connections that StateMeaning characterises |
| `IceTransportChannel.IceTransportChannel.UpdateState` | src/ice/ice_transport_channel.cpp:293-313 | writable, receiving and state recomputed, one signal if the state changed |
| `IceTransportChannel.IceTransportChannel.SwitchSelectedConnection` | src/ice/ice_transport_channel.cpp:386-405 | the selected mark moves from the old connection to the new one, and the controller follows only a selection that is not null |
| `IceTransportChannel.IceTransportChannel.SortConnectionsAndUpdateState` | src/ice/ice_transport_channel.cpp:360-378 | sort, switch if worth it, recompute, and start pinging once something is pingable, whatever a stale reference reads as |
| `IceTransportChannel.IceTransportChannel.MaybeStartPinging` | src/ice/ice_transport_channel.cpp:414-428 | started once, at the first pingable connection |
| `IceTransportChannel.IceTransportChannel.OnConnectionDestroyed` | src/ice/ice_transport_channel.cpp:237-249 | the destroy step of the runs above; exactly the selected connection stays marked |
| `Priority.CandidateFormula` | src/ice/candidate.cpp:20-27 | the or of shifted fields is the sum of section 4.1.2.1 of RFC 5245 and below 2^31 |
| `Priority.CandidateIsInjective` | src/ice/candidate.cpp:20-27 | different preferences give different priorities |
| `Priority.PeerReflexiveReplacesType` | src/ice/stun_request.cpp:128-130 | the priority sent in a check is the candidate's with only the type preference replaced |
| `Priority.OrOfDisjoint` | src/ice/candidate.cpp:24-26 | or of fields that do not overlap is addition |
| `Priority.AndOfMask` | src/ice/stun_request.cpp:129-130 | the mask keeps the low 24 bits |
| `Priority.PairFormulaExactly` | src/ice/ice_connection.cpp:396-402 | the mixed 32/64-bit code equals section 5.7.2 exactly if both priorities are below 2^31, and is 2^32 short otherwise |
| `Priority.PairOrder` | src/ice/ice_connection.cpp:396-402 | pairs are ordered lexicographically by minimum, maximum and G > D |
| `Priority.PairIsInjective` | src/ice/ice_connection.cpp:396-402 | different pairs have different priorities |
| `Priority.PairOrderBreaks` | src/ice/ice_connection.cpp:396-402 | with a priority of 2^31 a better pair ranks below a worse one |
| `Aggregation.NoWorseIsOrder` | src/ice/ice_agent.cpp:74-75 | the severity of states is a partial order |
| `Aggregation.RuleIsWorst` | src/ice/ice_agent.cpp:76-104 | the counting rules compute the least upper bound of the channel states, new if all are closed, and one rule always applies |
| `Aggregation.AgentSignals` | src/ice/ice_agent.cpp:106-117 | over every run of updates the last signal is the state, none repeats, and k_completed never directly follows k_checking |
| `Aggregation.AgentStateIsWorst` | src/ice/ice_agent.cpp:76-117 | after every update the state is the worst of the channels' states |
| `Aggregation.PcIsWorstPart` | src/pc/transport_controller.cpp:128-163 | the peer connection is in the state of its worst ICE or DTLS part, and the default is never left standing |
| `Aggregation.PcConnectedExactly` | src/pc/transport_controller.cpp:128-163 | connected exactly if every part is connected, completed or closed and not all are closed |
| `Aggregation.IceAgent.CountStates` | src/ice/ice_agent.cpp:78-81 | the count map holds the multiplicity of every state |
| `Aggregation.IceAgent.UpdateState` | src/ice/ice_agent.cpp:76-118 | the worst state, with k_connected signalled between k_checking and k_completed |
| `Aggregation.TransportController.CountStates` | src/pc/transport_controller.cpp:131-137 | both count maps |
| `Aggregation.TransportController.UpdateState` | src/pc/transport_controller.cpp:128-171 | the state of PcIsWorstPart, signalled exactly if it changed |
| `DtlsRecords.WalkIsExact` | src/pc/dtls_transport.cpp:514-533 | the walk accepts exactly the concatenations of complete records (section 4.1 of RFC 6347) |
| `DtlsRecords.CheckRecords` | src/pc/dtls_transport.cpp:514-533 | the loop ends, reads inside the buffer only and decides just that |
| `DtlsRecords.FirstByteDecides` | src/pc/dtls_transport.cpp:29-59 | DTLS from 20 to 63, RTP from 128 to 191 (section 5.1.2 of RFC 5764) |
| `DtlsRecords.KindsAreDisjoint` | src/pc/dtls_transport.cpp:29-59 | no packet is DTLS and RTP both; a ClientHello is DTLS |
| `DtlsEndpoint.HandleKeepsInv` | src/pc/dtls_transport.cpp:146-504 | every event, with any library answers, keeps the start and key invariant |
| `DtlsEndpoint.ExecKeepsInv` | src/pc/dtls_transport.cpp:146-504 | the same after every run |
| `DtlsEndpoint.SrtpOnlyWhileConnected` | src/pc/dtls_srtp_transport.cpp:179-285 | both SRTP sessions exist or none; if they do, DTLS is connected and their keys are those exported from the current adapter |
| `DtlsEndpoint.OpenInstallsKeysExactly` | src/pc/dtls_srtp_transport.cpp:179-231 | when the handshake is done both sessions get the adapter's keys exactly if it exports well-formed material and libsrtp takes both |
| `DtlsEndpoint.ConnectedIsKeyed` | src/pc/dtls_srtp_transport.cpp:179-231 | over every run in which the libraries never fail and no answer turns DTLS off, SRTP is keyed whenever DTLS is connected |
| `DtlsEndpoint.DeliveredExactly` | src/pc/dtls_srtp_transport.cpp:104-175 | and then exactly the RTP and RTCP packets that come while connected are handed up, unprotected under the client key |
| `DtlsEndpoint.SignalOutcome` | src/pc/dtls_transport.cpp:294-337 | a signal ends in the state its last part stands for, and without keys unless that is connected |
| `DtlsEndpoint.InjectedExactly` | src/pc/dtls_transport.cpp:176-233 | once started, exactly the DTLS datagrams made of complete records are injected, and nothing else happens to any packet |
| `DtlsEndpoint.StartOutcome` | src/pc/dtls_transport.cpp:352-374 | connecting or failed, by the library and the hello kept; the hello replayed; nothing while ICE is not writable |
| `DtlsEndpoint.SetupSucceedsExactly` | src/pc/dtls_transport.cpp:243-291 | by the library's three answers |
| `DtlsEndpoint.RepeatedFingerprintIsIgnored` | src/pc/dtls_transport.cpp:457-460 | a fingerprint that was set, given again, changes nothing |
| `DtlsEndpoint.FirstFingerprintIsSet` | src/pc/dtls_transport.cpp:477-487 | the first fingerprint goes to the adapter that is there |
| `DtlsEndpoint.ChangedFingerprintRebuilds` | src/pc/dtls_transport.cpp:489-504 | a changed one retires the adapter with its keys and sets up a new one with the new digest |
| `DtlsEndpoint.AnswerWithoutDtls` | src/pc/dtls_transport.cpp:462-471 | an answer without DTLS turns it off, and then no fingerprint is taken |
| `DtlsEndpoint.WritableFollowsIce` | src/pc/dtls_transport.cpp:146-166 | once connected, writable exactly while ICE is |
| `DtlsEndpoint.RtcpByType` | src/pc/dtls_srtp_transport.cpp:104-120 | RTCP by its packet type |
| `DtlsEndpoint.StartedAtMostOnce` | src/pc/dtls_transport.cpp:352-374 | StartSSL at most once on every adapter ever created, across fingerprint changes |
| `DtlsEndpoint.DeliveredOnlyUnprotected` | src/pc/dtls_srtp_transport.cpp:104-175 | a packet is handed up only while connected, and only as unprotected under the exported client key |
| `DtlsStart.RunIsExpected` | src/pc/dtls_transport.cpp:146-291 | the whole state after any arrivals of hello, answer, writable and junk, as a function of what has arrived |
| `DtlsStart.StartIsConfluent` | src/pc/dtls_transport.cpp:146-504 | in any order the run ends connecting, started once, with the answer's digest, an empty cache and the hello injected; two orders differ at most in extra hello copies |
| `DtlsStart.HelloIsInjected` | src/pc/dtls_transport.cpp:176-233 | a hello received is injected, however early it came |
| `DtlsStart.InjectedAtMostOnceEach` | src/pc/dtls_transport.cpp:352-374 | no more injections than hellos received |
| `DtlsTransport.DtlsTransport.SetRtpParams` | src/pc/srtp_transport.cpp:13-49 | both sessions or none |
| `DtlsTransport.DtlsTransport.ResetParams` | src/pc/srtp_transport.cpp:51-55 | no session left |
| `DtlsTransport.DtlsTransport.SetupDtlsSrtp` | src/pc/dtls_srtp_transport.cpp:197-231 | keys installed once, only while connected and writable |
| `DtlsTransport.SplitMaterial` | src/pc/dtls_srtp_transport.cpp:239-285 | four copies at a moving offset give server and client key with their salts |
| `DtlsTransport.MaterialIsPartitioned` | src/pc/dtls_srtp_transport.cpp:239-285 | no exported byte is lost or used twice |
| `DtlsTransport.DtlsTransport.SetDtlsState` | src/pc/dtls_transport.cpp:376-385 | the state and its effect on the keys |
| `DtlsTransport.DtlsTransport.HandleDtlsPacket` | src/pc/dtls_transport.cpp:514-533 | injected exactly if made of complete records |
| `DtlsTransport.DtlsTransport.MaybeStartDtls` | src/pc/dtls_transport.cpp:352-374 | starts when ICE is writable and replays a cached hello |
| `DtlsTransport.DtlsTransport.SetupDtls` | src/pc/dtls_transport.cpp:243-291 | a new adapter, with the digest if known |
| `DtlsTransport.DtlsTransport.OnReadPacket` | src/pc/dtls_transport.cpp:176-233 | caches, injects, passes on or drops by state and packet kind |
| `DtlsTransport.DtlsTransport.OnWritableState` | src/pc/dtls_transport.cpp:146-166 | starts DTLS or follows ICE, by state |
| `DtlsTransport.DtlsTransport.SetRemoteFingerprint` | src/pc/dtls_transport.cpp:452-504 | a repeated fingerprint changes nothing, a first one is given to the adapter, a changed one rebuilds it; a digest not taken returns true if the certificate did not match |
| `DtlsTransport.DtlsTransport.Rebuild` | src/pc/dtls_transport.cpp:489-504 | the old adapter is dropped with its keys before a new one is set up |
| `DtlsTransport.DtlsTransport.OnDtlsEvent` | src/pc/dtls_transport.cpp:294-337 | open, read loop and close of one signal in turn: connected, closed or failed, with signal_closed when the stream ends |
| `SsrcRoundTrip.ParseAfterBuild` | src/pc/peer_connection.cpp:215-465 | the SSRC parsers make of the lines printed for tracks the same tracks: ids, SSRCs, cname, stream id, groups, in order |
| `SsrcText.TextRoundTrip` | src/pc/peer_connection.cpp:344-465 | the exact condition through the text: printed, cut at line ends and parsed |
| `RemoteSdp.RoundTripExactly` | src/pc/peer_connection.cpp:377-465 | after any lines that leave the parser in a video section, the printed tracks come back exactly if no id, cname or stream id contains a pattern of another rule, and the description is refused otherwise |
| `RemoteSdp.CleanTracksComeBack` | src/pc/peer_connection.cpp:377-465 | clean tracks come back whole, and nothing else of the description changes |
| `RemoteSdp.UncleanTracksFail` | src/pc/peer_connection.cpp:394-434 | one token with a pattern makes set_remote_sdp fail, with -1 or with the exception of substr |
| `RemoteSdp.MediaRuleFails` | src/pc/peer_connection.cpp:394-399 | `m=` in a value: the line has two words where the media rule wants three, and -1 is returned in any state |
| `RemoteSdp.TransportRuleFails` | src/pc/peer_connection.cpp:171-206 | any pattern in a value: the line throws exactly if `a=fingerprint` is the only one and the SSRC has six digits or less, and is refused with -1 otherwise |
| `RemoteSdp.MediaPatternInId` | src/pc/peer_connection.cpp:394-410 | `m=` in a track id: the msid line changes the media type, the label line makes the parser fail |
| `RemoteSdp.LinePattern` | src/pc/peer_connection.cpp:377-437 | a printed SSRC line sets off exactly the rules whose patterns are in its value |
| `RemoteSdp.VideoSectionComesBack` | src/pc/peer_connection.cpp:377-465 | a section with its media line and credentials: the credentials are read and the tracks come back |
| `RemoteSdp.FingerprintLine` | src/pc/peer_connection.cpp:183-205 | a fingerprint line is kept exactly if the library takes it |
| `RemoteSdp.AudioTracksComeBack` | src/pc/peer_connection.cpp:414-445 | in an audio section clean tracks come back without their groups |
| `RemoteSdp.MediaPatternIsLost` | src/pc/peer_connection.cpp:394-410 | one track with `m=` in its id, lost in any section |
| `SsrcRoundTrip.ParseSsrcLine` | src/pc/peer_connection.cpp:215-273 | an SSRC line is taken apart into exactly the SSRC, attribute and value printed |
| `SsrcRoundTrip.LineRules` | src/pc/peer_connection.cpp:215-218 | a printed SSRC line is taken for an SSRC line and not for a group line, whatever its value |
| `SsrcRoundTrip.ParseGroupLine` | src/pc/peer_connection.cpp:309-342 | a group line gives back its semantics and all its SSRCs |
| `SsrcRoundTrip.ParseBuilt` | src/pc/session_description.cpp:252-275 | all printed lines parse into one entry for each SSRC and every group |
| `SsrcRoundTrip.CreateAll` | src/pc/peer_connection.cpp:279-306 | the entries regroup into the tracks |
| `SsrcRoundTrip.AssignAll` | src/pc/peer_connection.cpp:450-461 | every group returns to its own track only |
| `SsrcText.CutText` | src/pc/peer_connection.cpp:344-374 | cutting the text gives back its lines |
| `SsrcLoops.BuildSsrc` | src/pc/session_description.cpp:252-275 | the nested loops print exactly those lines |
| `SsrcLoops.PrintGroups` | src/pc/session_description.cpp:256-266 | the group loop |
| `SsrcLoops.PrintSsrcs` | src/pc/session_description.cpp:267-273 | the SSRC loop |
| `SsrcLoops.AddSsrcLine` | src/pc/session_description.cpp:234-238 | one line |
| `SsrcLoops.ParseSsrcInfo` | src/pc/peer_connection.cpp:215-273 | the entry found or added and updated, or failure |
| `SsrcLoops.FindInfo` | src/pc/peer_connection.cpp:241-246 | the first entry with the SSRC |
| `SsrcLoops.CreateTrackFromSsrcInfo` | src/pc/peer_connection.cpp:279-306 | the tracks of the entries, by id, in order |
| `SsrcLoops.GiveGroup` | src/pc/peer_connection.cpp:451-460 | the group goes to the tracks that have its first SSRC |
| `SsrcLoops.ParseTransportInfo` | src/pc/peer_connection.cpp:171-206 | credentials and fingerprint of a section, -1, or the exception |
| `SsrcLoops.TakeField` | src/pc/peer_connection.cpp:377-436 | one line of the loop: bundle, media, then the parsers of the section it is in |
| `SsrcLoops.AssembleVideoTracks` | src/pc/peer_connection.cpp:447-461 | the tracks of the section, each with its groups |
| `SsrcLoops.ReadDescription` | src/pc/peer_connection.cpp:377-465 | all lines, then the video tracks, or the failure of the first line that fails |
| `SignalingFraming.HandlerGetsTheBody` | src/server/signaling_worker.cpp:328-422 | for every handler and every split into reads the handler is called on exactly the body, not before it is complete, once then, and a second time only with 65500 bytes behind it; a bad magic number never reaches it |
| `SignalingFraming.ClosedExactly` | src/server/signaling_worker.cpp:328-422 | the connection is closed exactly on a bad magic number, if the request is refused with what stood behind it when it was complete, or if it is refused the second time |
| `SignalingFraming.EndOfStreamCloses` | src/server/signaling_worker.cpp:347-350 | the end of the stream closes the connection without another call |
| `SignalingFraming.HeaderAnnounces` | src/base/xhead.h:11-19 | a header announces the number whose little-endian bytes it holds |
| `SignalingFraming.ChunkingIrrelevantExactly` | src/server/signaling_worker.cpp:395-437 | with fewer than 65500 bytes behind a request, the reads do not matter exactly if the handler answers alike for every beginning of what stands behind the body |
| `SignalingFraming.NulInBodyDecides` | src/server/signaling_worker.cpp:424-446 | the source's handler, which parses up to the first NUL, answers by the body alone if that holds a NUL, and then the reads never matter |
| `SignalingFraming.ReadsMatter` | src/server/signaling_worker.cpp:328-437 | the same bytes, in reads of at most bytes_expected: open if the last byte comes alone, closed if it comes with the end of the header |
| `SignalingFraming.ReadsMatterForText` | src/server/signaling_worker.cpp:424-446 | the same for the source's handler and any text accepted alone and refused with one more byte |
| `SignalingFraming.FeedAllIsTold` | src/server/signaling_worker.cpp:328-422 | what has happened after any reads, divergence included, is decided by the bytes received and by what stood behind the body at two of the reads |
| `SignalingFraming.DivergesExactly` | src/server/signaling_worker.cpp:328-422 | no number of iterations ends the loop exactly if 65500 bytes have arrived behind the request and it was accepted both with what stood behind it when it was complete and with what stood behind it when they had |
| `SignalingFraming.StuckForEver` | src/server/signaling_worker.cpp:395-418 | then the loop makes n iterations for every n and gives the same request to the handler each time |
| `SignalingFraming.LoopWorkedOut` | src/server/signaling_worker.cpp:395-422 | from any state the loop ends in at most two iterations or never, and this is where it ends |
| `SignalingFraming.ThirdRead` | src/server/signaling_worker.cpp:339-356 | header, any accepted body of 65536 bytes and as many more, in reads of at most bytes_expected: the third read never returns if the request is accepted again, and closes the connection otherwise |
| `SignalingFraming.TcpConnection.ProcessQueryBuffer` | src/server/signaling_worker.cpp:395-422 | the first iterations of the loop, as many as wanted, on any buffer, and the value returned if they end it |
| `SignalingFraming.TcpConnection.ReadQuery` | src/server/signaling_worker.cpp:328-360 | closes at the end of the stream, otherwise appends what the socket returned and processes it |
| `UdpSendQueue.DatagramsConservedInOrder` | src/base/async_udp_socket.cpp:81-163 | for every pattern of kernel answers each datagram is sent, dropped or queued, and only one of these, as many sent as accepted and as many dropped as failed; they leave in order, none overtakes a queued one, and a non-empty queue has WRITE interest |
| `UdpSendQueue.SentAndDroppedAreTallied` | src/base/async_udp_socket.cpp:81-163 | the number sent is the number of calls accepted, the number dropped that of errors; would-block loses nothing |
| `UdpSendQueue.DrainGoesOn` | src/base/async_udp_socket.cpp:81-108 | draining ends with an empty queue or a refused call |
| `UdpSendQueue.WritableDrains` | src/base/async_udp_socket.cpp:110-117 | when writable, WRITE interest is given up exactly if nothing is left |
| `UdpSendQueue.SubmitTries` | src/base/async_udp_socket.cpp:129-163 | a datagram stays queued only if the kernel refused the last call |
| `UdpSendQueue.ExecKeepsInv` | src/base/async_udp_socket.cpp:81-163 | the invariant behind it, after every run |
| `UdpSendQueue.AsyncUdpSocket.SendDataFromList` | src/base/async_udp_socket.cpp:81-108 | drains from the front, dropping at most the datagram that failed |
| `UdpSendQueue.AsyncUdpSocket.SendData` | src/base/async_udp_socket.cpp:110-117 | disarms WRITE exactly if the queue is empty |
| `UdpSendQueue.AsyncUdpSocket.AddUdpPacket` | src/base/async_udp_socket.cpp:129-163 | tries at once only if nothing is queued, queues and arms otherwise |

## Left out

- Sockets, libev timers, threads, YAML, JSON, logging and `main`: only the read and write results, pipe tokens and timer ticks remain, as parameters and events.
- OpenSSL, libsrtp, HMAC-SHA1, CRC32 and rtc_base internals: functions and answers given as parameters; `tokenize`, `split` and `tokenize_first` are small definitions in `SdpText`, `FromString` accepts digit strings only, and the moving average is (3 * old + new) / 4.
- The C++ memory model: the queue's pointers are plain, and the queue is proved under sequential consistency.
- TCP reply writing: the resend ignores how much was already sent (src/server/signaling_worker.cpp:372-390).
- `UDPPort::_connections`: its entries are not erased on destroy (src/ice/udp_port.cpp:327-342).
- Stream ownership in RtcStreamManager and the forwarding lookups: one-branch facts.
- Whole-SDP parsing, codec and fmtp text, IPv6 XOR addresses.
- ERROR-CODE attributes: never parsed, so a received error always reads as 600.
- StunRequestManager: the map of requests in flight and its dispatch by response type; here a response is an event of the connection.
- Object destruction order and the 10 ms deferred delete: a value-level model has no object lifetimes.
- QUIT tokens on the pipes: shutting down a worker is not part of the runs.
- IceScheduler.EveryConnectionIsPinged: the stretch has no check through a stale reference.
- IceSelection.NoPingPong: the selected connection is not destroyed, and RTTs do not change between the rounds.
- IceConnection.SilentWritableTimesOut: the clock does not go back; a connection's life ends at its destruction, although update_state goes on to refresh the receiving flag.
- IceTransportChannel.IceTransportChannel.SortConnectionsAndUpdateState: what the controller reads through a reference to a destroyed connection is an arbitrary value.
- StunMessage.ValidateIntegrity: the memory after a message that is too short is a parameter.
- SignalingFraming.TcpConnection.ProcessQueryBuffer: runs as many iterations as it is told, since the loop may not end; an exception that leaves the handler, as for a command number that is no number, is not modelled.
- SignalingFraming.HandlerGetsTheBody: covers any split into reads; that the number of bytes asked for is an int, negative for a declared body of 2^31 bytes or more, is not modelled.
- RemoteSdp.RoundTripExactly: group semantics are names without `=`; the bundle group, the contents list and the handing over to the transport controller are not kept, and the digest parser knows no algorithm named by a number.
- DtlsEndpoint.SrtpOnlyWhileConnected: RTCP is multiplexed with RTP, and the library's reaction to injected bytes is a signal of its own.
- DtlsStart.StartIsConfluent: a certificate is set and the library calls succeed; ICE stays writable.
- ThreadHandOff.StreamOrderKept: pipe writes succeed; a message refused by the certificate check is not handed on.
