# Verified model of the spdylay session engine

spdylay is a C library for SPDY/2 and SPDY/3 (draft-mbelshe-httpbis-spdy-00). Its core does no
I/O of its own: an application submits requests, feeds received bytes in, and is called back
with frames to send and data to read. This project models that core in Dafny and proves what
it promises over every run, every input and every reachable state.

`dafny verify dfyconfig.toml` checks everything.

## The parts

**Flow control between two endpoints** (`FlowControl`, `FlowSession`, `Ports`, `Endpoints`,
`TwoSessions`, `Exchanges`). `FlowControl` is one stream direction as a protocol: a sender, a
receiver, a wire for DATA and a wire for WINDOW_UPDATE and SETTINGS, with an outbound queue that
may reorder. Its theorems account for the sender's initial window to the byte in every run, also
with partial sends, application credit and SETTINGS changes, and say exactly where the promises
end. `TwoSessions` then takes two whole sessions, new ones, in either role, and two wires.
`Refines` shows that whatever they do, with any number of other streams in both directions, is a
run of that protocol for every stream ID, from before the stream is opened at either end and for
as long as it is neither FIN'd nor reset; DATA may be on the wire before the receiver has the
SYN_STREAM or SYN_REPLY. So `CreditIsConserved`, `WindowsFit`, `NoFlowControlError` and
`CannotDeadlock` hold of the sessions themselves, and what is lost or granted too much is a
function of the moves (`RunTally`). `Exchanges` has such runs for both directions, an upload and
a response. `Ports` shows that every operation that is not about a stream's windows leaves them
and the waiting control frames alone.

**The session** (`SessionTypes` to `SessionTheorems`, `SessionAnswers`, `SessionEffects`,
`Oversized`, `SessionEngine`). Every operation is a function on session values that provably keeps one
invariant (`SessionInvariant.Inv`), the credit bound (`Funded`) and the one-way movement of
GOAWAY; `SessionRuns` closes them under arbitrary sequences of application calls, send-loop
rounds and received frames, and `SessionTheorems` states what follows for every reachable
session. A log of what the outside world sees carries the statements about whole runs.
`SessionAnswers` says exactly when each operation accepts, refuses, opens, closes or sends, and
`SessionEffects` what becomes of every stream, half by half, and which frame is queued with which
status and priority.
`SessionEngine` is the same session as the program keeps it: an object with mutable fields and
one mutable record per stream, whose methods update them in place. `Engine.Send` is the loop of
spdylay_session_send, and `Drive` concludes that whatever happens to such an object, it holds the
session that the same inputs lead to.

**The incremental receiver** (`FrameReceiver`, `InboundFrame`, `FrameWire`). The five-state byte automaton of
spdylay_session_mem_recv, as a loop over buffers and offsets (`Inbound.MemRecv`).
`Inbound.MemRecvAll`: however a byte string is cut into calls, all of it is consumed, and the
result is the one of cutting the whole string into 8-byte headers and payloads, processing whole
frames, and describing an incomplete last frame in closed form. The decompressor is any function
from a state and a byte to a state and output, so its output on concatenated input is the
concatenation of outputs. `FrameWire` writes frames as a peer does, in network order, and
`ReceiveFrames` shows that exactly those frames are handled, however their bytes are cut.

**The stream map** (`Hash`, `Treap`, `TreapPath`, `StreamMap`, `MapTraversal`). The intrusive treap
with parent pointers. The hash is injective on 32-bit keys, so the shape is canonical
(`HistoryIndependent`). `HashLines` has the function line by line. `StreamMap` has the pointer-level rotations, insertion and removal,
`MapTraversal` the in-order walk and the freeing walk, which never looks at an entry it has freed.

**Header blocks** (`HeaderWire`, `HeaderPack`, `HeaderTable`, `NameSorting`, `HeaderUnpack`,
`HeaderRoundTrip`) **over the chunked buffer** (`ChunkBuffer`). Packing with patched lengths,
length words in network order (`WordOrder`), counting, the two-pass decoder reading through the chunk list, duplicate detection after a sort
that need not be stable, and the round trip.

**The scheduler** (`PriorityQueue`). The binary heap implements the sorted queue the session uses.

## What the proofs say about the code

- A DATA frame cut over several send callbacks is charged to the window once per callback and
  credited once (lib/spdylay_session.c:1564-1574). The protocol stays safe (`NeverOverSend`,
  `HonestPeer`) but the window shrinks for good: `CutFrameLeaks`. Nothing is lost in a run if
  and only if no callback finds a non-empty payload charged already: `LostExact`.
- Lowering INITIAL_WINDOW_SIZE to or below what is uncredited or lost stops a drained stream
  for good: `LoweringExact` with `StuckForGood`; in every drained state, `QuiescentExact`.
- An INITIAL_WINDOW_SIZE of 2^31 or more is stored but not applied, so the next one adds the
  difference to every window (lib/spdylay_session.c:1946-1965): `OversizedInflates`. A run in
  which a DATA frame is packed past the grant exists (`OverSendHappens`), and every run without
  such an announcement stays within it (`WithinGrant`); `OverSendExact` has the exact condition.
  Both are stated where the new window can be computed in 32 bits (`Computable`: the old window is
  at most big - 2^31, and old window + v + 2^32 - big is below 2^31). Outside that range the
  subtraction overflows `int32_t` (lib/spdylay_stream.c:96-102, lib/spdylay_stream.h:108), which C
  leaves undefined; on two's complement the window becomes negative and the sender defers.
- A RST_STREAM that answers DATA for an ID not opened yet does not keep the ID from being used
  later (`ResetReturns`); one sent after the stream was opened is final (`ResetIsFinal`).
- With both queues filled spdylay_session_pop_next_ob_item takes the SYN_STREAM and does not
  look at the concurrency limit (lib/spdylay_session.c:1240-1245), unlike
  spdylay_session_get_next_ob_item: `PopPeekAgree` says exactly when the two differ, and
  `LimitPassed` when the number of streams passes the limit; `LimitIgnored` is such a run.
- spdylay_session_after_frame_sent overwrites CLOSING (lib/spdylay_session.c:1292, 1321), so no
  statement takes CLOSING to be final.
- spdylay_buffer_serialize copies chunks past the current one (lib/spdylay_buffer.c:138-147): its
  result is the content exactly when no reused chunk is left over (`Buffer.Serialize`), so after a
  reset it is stale bytes (`SerializeStale`).
- spdylay_frame_pack_nv starts with an empty previous name, so a list that starts with an empty
  name would patch a length through a null pointer; spdylay_frame_nv_check_null keeps such lists
  out (lib/spdylay_frame.c:1276-1285). That is the only demand of `PackNv` besides room.

## Model

| member | source | states |
|---|---|---|
| `FlowControl.CreditConservation` | lib/spdylay_session.c:1564-1574 | in every run, window + charged part of the frame buffer + DATA on the wire + uncredited bytes + credits queued or on the wire + recorded losses equals the sender's current initial window plus over-granted credit; lost are payload charged again, bytes the counter drops and refused credit |
| `FlowControl.StepConserves` | lib/spdylay_session.c:2444-2478 | each of the eight protocol steps keeps that balance and its bounds |
| `FlowControl.HonestPeer` | lib/spdylay_session.c:2007-2045 | a receiver that grants at most what it received never provokes FLOW_CONTROL_ERROR, however frames are cut |
| `FlowControl.LostExact` | lib/spdylay_session.c:1564-1574 | in such a run losses only add up, and nothing is lost, by charging twice or by the saturating counter, if and only if no send callback finds a non-empty payload charged already |
| `FlowControl.OverGrantExact` | lib/spdylay_session.c:2018-2025 | a grant that meets an empty control path provokes the error exactly when it takes the window past 2^31 - 1, whatever DATA is under way |
| `FlowControl.CreditFits` | lib/spdylay_session.c:2018-2025 | under backed grants the credit next to be delivered always fits |
| `FlowControl.AlwaysInSync` | lib/spdylay_session.c:1897-1909 | what the sender will hold as initial window once everything is delivered is what the receiver last announced, although the queue may reorder |
| `FlowControl.QuiescentExact` | lib/spdylay_session.c:718-729 | in every drained state the sender's window is given by the receiver's count, and it can pack a frame if and only if uncredited and lost bytes are fewer than the initial window plus over-granted credit |
| `FlowControl.NoDeadlock` | lib/spdylay_session.c:2460-2474 | with automatic WINDOW_UPDATE never switched off, backed grants, whole-frame sends and an initial window never lowered, a drained sender has more than half the window and can go on |
| `FlowControl.Progress` | lib/spdylay_session.c:1497-1587 | in every state that is not drained some protocol step other than packing is enabled and brings it closer to drained |
| `FlowControl.Drains` | lib/spdylay_session.c:1497-1587 | from every state a run of such steps leads to a drained one |
| `FlowControl.StuckForGood` | lib/spdylay_session.c:1139-1143 | a drained sender without window has no enabled protocol step |
| `FlowControl.LoweringExact` | lib/spdylay_session.c:1859-1909 | from a drained state, an initial window announced and delivered leaves the sender able to go on exactly when it and over-granted credit exceed what is uncredited or lost |
| `FlowControl.CutFrameLeaks` | lib/spdylay_session.c:1564-1574 | a frame cut over any number of send callbacks costs its payload with each, of which all but the first are lost |
| `FlowControl.InitHolds` | lib/spdylay_session.c:470-496 | a stream just opened between new sessions starts out balanced, in sync and credited |
| `FlowSession.ChargeIsStep` | lib/spdylay_session.c:1564-1577 | a successful send callback for a DATA frame is the SendCall step, up to what happens once the frame is out |
| `FlowSession.CreditIsStep` | lib/spdylay_session.c:2007-2045 | a WINDOW_UPDATE received is the Deliver step; RST_STREAM with FLOW_CONTROL_ERROR is queued exactly when the protocol raises its error |
| `FlowSession.CountIsStep` | lib/spdylay_session.c:2444-2478 | counting received bytes is the receiver's step, with the same WINDOW_UPDATE |
| `FlowSession.GrantIsStep` | lib/spdylay_submit.c:263-279 | spdylay_submit_window_update is the GrantCredit step and queues that WINDOW_UPDATE |
| `Ports.StepStill` | lib/spdylay_session.c:1709-2111 | no input but those about windows, settings, sending and the stream's own DATA moves its windows, the settings, the frame buffer or its waiting control frames |
| `Ports.SettingsDone` | lib/spdylay_session.c:1922-1969 | of a SETTINGS frame the first initial window size counts: it is stored, remembered if oversized, and otherwise shifts the window; nothing on the receiving side moves |
| `Ports.PullDone` | lib/spdylay_session.c:1500-1550 | preparing the next frame moves no window; a DATA frame fits its window, and a waiting control frame goes on waiting, at the head |
| `Ports.PushDone` | lib/spdylay_session.c:1556-1582 | a send callback charges only the stream of a DATA frame; once the frame is out nothing but a DATA frame of the same stream, within its window, follows it in the buffer |
| `Ports.EnqueueSetting` | lib/spdylay_session.c:403-418 | a new SETTINGS frame is queued behind the waiting ones |
| `Endpoints.StepAtA` | lib/spdylay_session.c:1497-1587 | every input at the sender that does not come off the control wire is a sequence of protocol steps: none, Pack, SendCall, or SendCall and Pack, which loses exactly the payload charged again; the stream need not be open yet |
| `Endpoints.StepAtB` | lib/spdylay_session.c:2444-2693 | every input at the receiver is at most one protocol step: none, Receive, GrantCredit, ChangeInit, Switch or Transmit, with exactly the bytes dropped and the credit over-granted that the input implies; the stream need not be open yet |
| `Endpoints.HeadAtB` | lib/spdylay_session.c:2540-2590 | the header of a DATA frame off the wire starts the frame and, if it is empty, ends it |
| `Endpoints.BytesAtB` | lib/spdylay_session.c:2640-2693 | payload bytes of the stream are the Receive step, with the WINDOW_UPDATE they may queue |
| `Endpoints.TransmitFirst` | lib/spdylay_session.c:1210-1271 | the control frame that leaves the queue can be transmitted in the protocol: SETTINGS frames keep their order |
| `Endpoints.SettingsSend` | lib/spdylay_session.c:1922-1969 | a SETTINGS frame with any entries, delivered to the sender, is the Deliver step |
| `TwoSessions.Simulate` | lib/spdylay_session.c:1497-2693 | every move of two connected sessions is a sequence of protocol steps with the same losses and over-grants, and with backed grants, whole frames, rising initial windows and automatic WINDOW_UPDATE carried over |
| `TwoSessions.Refines` | lib/spdylay_session.c:1497-2693 | every run of two connected sessions, before and after the stream is opened at either end, is a run of the protocol, for as long as it is neither FIN'd nor reset |
| `TwoSessions.CreditIsConserved` | lib/spdylay_session.c:1564-1574 | in every run of two new sessions, window + charged frame + DATA on the wire and being received + uncredited bytes + credit queued or on the wire + the losses of its moves equals the sender's initial window plus the over-grants of its moves; with backed grants the over-grants are zero, and with whole frames the losses too |
| `TwoSessions.WindowsFit` | lib/spdylay_stream.h:106-111 | with backed grants and whole frames, in every run the window and the count of received bytes stay within their 32 bits |
| `TwoSessions.NoFlowControlError` | lib/spdylay_session.c:2018-2025 | with backed grants, in every run of two new sessions the WINDOW_UPDATE next to arrive is accepted |
| `TwoSessions.CannotDeadlock` | lib/spdylay_session.c:2460-2474 | with automatic WINDOW_UPDATE left on, backed grants, whole frames and an initial window never lowered, in every run of two new sessions the sender has, whenever nothing of the stream is under way, more than half the window both ends agree on |
| `Exchanges.Upload` | lib/spdylay_session.c:1497-1587 | there is such a run in which DATA of a request is on the wire before the server knows the stream, and one in which it is then received |
| `Exchanges.Response` | lib/spdylay_session.c:1497-1587 | and one in which DATA of a response is on the wire before the client may take it, and is then received |
| `SessionTheorems.IdsIncrease` | lib/spdylay_session.c:974-976 | in every run, IDs entering the map on one side are strictly increasing |
| `SessionTheorems.IdsInRange` | lib/spdylay_session.c:1628-1639 | every ID that entered the map is positive and below 2^31; one of our parity was assigned here, any other accepted from the peer |
| `SessionTheorems.OpenNeverRefused` | lib/spdylay_session.c:470-496 | in every reachable state neither our next ID nor an ID accepted from the peer is in the map, and parities are right |
| `SessionTheorems.CountersExact` | lib/spdylay_session.c:488-492 | num_outgoing_streams and num_incoming_streams are the numbers of own and peer IDs in the map |
| `SessionTheorems.SilentAfterFin` | lib/spdylay_session.c:1286-1427 | after a frame with FIN was sent on a stream no SYN_REPLY, HEADERS or DATA frame for that ID is ever sent |
| `SessionTheorems.DeafAfterFin` | lib/spdylay_session.c:2361-2411 | after an accepted FIN of the peer no data chunk is delivered for that ID |
| `SessionTheorems.NoneLingers` | lib/spdylay_session.c:523-532 | no stream in the map of a reachable session has both directions shut or was reported closed |
| `SessionTheorems.ClosedOnce` | lib/spdylay_session.c:498-521 | the close callback fires at most once per ID |
| `SessionTheorems.SingleOwner` | lib/spdylay_session.c:350-448 | every accepted item is in exactly one of the two queues, the active slot or one deferred slot, or was freed exactly once; no stream has both an active and a deferred DATA item |
| `SessionTheorems.QueuesSorted` | lib/spdylay_session.c:99-109 | in every reachable state both queues are in strict order of priority and number, and SYN_STREAM frames are in the second and only there |
| `SessionTheorems.PeekIsMostUrgent` | lib/spdylay_session.c:1176-1208 | spdylay_session_get_next_ob_item returns the most urgent of the items it may choose from: all queued ones, without SYN_STREAM frames at the limit; and nothing exactly if there are none |
| `SessionTheorems.PopPeekAgree` | lib/spdylay_session.c:1210-1271 | spdylay_session_pop_next_ob_item takes that item, except exactly when both queues are filled and the limit is reached or the other frame is more urgent |
| `SessionTheorems.LimitPassed` | lib/spdylay_session.c:1240-1245 | at the limit, sending takes the number of own streams past it exactly when both queues are filled and the SYN_STREAM may be sent and is packed |
| `SessionTheorems.LimitIgnored` | lib/spdylay_session.c:1240-1245 | such a run exists, and in it pop and peek differ |
| `SessionTheorems.NoLostWakeUp` | lib/spdylay_session.c:2026-2039 | a DATA item deferred for flow control has no window; the WINDOW_UPDATE that makes it positive queues that item exactly once |
| `SessionTheorems.SettingsWake` | lib/spdylay_session.c:1859-1895 | the initial window size that makes it positive does so too, whatever other streams wake up |
| `SessionTheorems.FailureEnds` | lib/spdylay_session.c:2717-2750 | a failing session wants nothing more once its GOAWAY is sent, in any continuation |
| `SessionTheorems.WantsExactly` | lib/spdylay_session.c:2717-2750 | want_read and want_write are exact: against the flags, the map, and what the send loop would take |
| `SessionTheorems.GoawayCounts` | lib/spdylay_session.c:1993-2005 | a GOAWAY received sets its flag and changes nothing else |
| `SessionTheorems.NoneEnters` | lib/spdylay_session.c:577-581 | from a GOAWAY sent, received or due on, no stream enters the map in any continuation, and the log only grows |
| `SessionTheorems.GoawayShutsOut` | lib/spdylay_session.c:1993-2005 | so no stream enters after a GOAWAY has arrived |
| `SessionTheorems.FailureShutsOut` | lib/spdylay_session.c:75-80 | nor after a malformed frame, for which GOAWAY is due |
| `SessionTheorems.NoneEntersAfterGoaway` | lib/spdylay_session.c:1099-1106 | nor after one has been sent |
| `SessionTheorems.BeginsFirst` | lib/spdylay_session.c:1004-1060 | every HEADERS and DATA frame sent on a stream comes after the one SYN_STREAM or SYN_REPLY with which our side of it begins |
| `SessionTheorems.ResetIsFinal` | lib/spdylay_session.c:1343-1357 | a stream in the map entered it after every RST_STREAM for its ID that was sent: one reset after it was opened never returns |
| `SessionTheorems.NeverOverSend` | lib/spdylay_session.c:1126-1162 | in every run, with arbitrary partial sends, no DATA frame is packed past the initial window plus accepted credit of that moment, unless an initial window of 2^31 or more was announced |
| `SessionTheorems.OversizedInflates` | lib/spdylay_session.c:1946-1965 | after an initial window of 2^31 or more the next one inflates every window by what was skipped, where 32 bits hold the result |
| `SessionTheorems.WindowSetting` | lib/spdylay_session.c:1859-1909 | a SETTINGS frame shifts every window by the change if the value is below 2^31, and is always stored |
| `SessionTheorems.OneGoaway` | lib/spdylay_session.c:1099-1106 | at most one GOAWAY frame is ever sent |
| `SessionTheorems.GoawayWindsDown` | lib/spdylay_session.c:2717-2750 | once a GOAWAY is sent, received or due, the open IDs only shrink in every continuation, and with none left want_read and want_write stay false |
| `Oversized.OversizedExact` | lib/spdylay_session.c:1946-1965 | a run has seen an oversized initial window if and only if some SETTINGS frame processed in it counts one |
| `Oversized.WithinGrant` | lib/spdylay_session.c:1126-1162 | a run without one never packs a DATA frame past the grant |
| `Oversized.OverSendExact` | lib/spdylay_session.c:1946-1965 | after an oversized value and then v, sending k more bytes exceeds the grant exactly when k more bytes exceed v plus credit, however large a window, within 32 bits, the sender believes in |
| `Oversized.OverSendHappens` | lib/spdylay_session.c:1946-1965 | such a run exists from a new client session |
| `SessionEffects.NewSession` | lib/spdylay_session.c:205-302 | a new session: first IDs by role, 250 streams and one megabyte of window each way, and nothing else |
| `SessionEffects.SendingTable` | lib/spdylay_session.c:1283-1398 | for every frame sent and every stream: SYN_STREAM makes it Opening and with UNIDIRECTIONAL shuts the peer's half, SYN_REPLY Opened, FIN shuts ours, RST_STREAM removes it, and it closes exactly when both halves are shut; no other stream moves |
| `SessionEffects.SendingQueues` | lib/spdylay_session.c:1298-1338 | a data provider given with SYN_STREAM or SYN_REPLY is queued as DATA with FIN and the priority of the stream; nothing else is |
| `SessionEffects.SentOnRecord` | lib/spdylay_session.c:1364-1366 | the frame is on record, and GOAWAY is remembered as sent exactly by a GOAWAY frame |
| `SessionEffects.ControlFreed` | lib/spdylay_session.c:1398 | a control item is freed once sent |
| `SessionEffects.ResetCloses` | lib/spdylay_session.c:1343-1357 | a RST_STREAM sent removes its stream, corrects the count of its side, and reports the close unless its SYN_STREAM never went out |
| `SessionEffects.ResetReturns` | lib/spdylay_session.c:2361-2411 | a run in which a reset ID is opened afterwards |
| `SessionEffects.RefusalExact` | lib/spdylay_session.c:1655-1687 | the exact condition of each status with which a new SYN_STREAM is refused |
| `SessionEffects.OpensExactly` | lib/spdylay_session.c:1628-1763 | the exact condition under which a SYN_STREAM opens a stream, in terms of its fields, the last ID, the map and the limit |
| `SessionEffects.PeerOpens` | lib/spdylay_session.c:1736-1763 | the stream a SYN_STREAM opens: FIN shuts the peer's half and UNIDIRECTIONAL ours, with the given priority and fresh windows; DATA may come exactly without FIN and may go exactly without UNIDIRECTIONAL; no other stream moves |
| `SessionEffects.PeerRefused` | lib/spdylay_session.c:1709-1789 | what becomes of every SYN_STREAM that opens nothing |
| `SessionEffects.FinTable` | lib/spdylay_session.c:523-532 | a FIN accepted shuts the peer's half, and closes the stream exactly if ours is shut |
| `SessionEffects.ReplyOpens` | lib/spdylay_session.c:1791-1838 | the first SYN_REPLY on an own stream makes it Opened, and its FIN counts |
| `SessionEffects.RefusalStatus` | lib/spdylay_session.c:1791-2411 | the status with which SYN_REPLY, HEADERS and DATA are refused |
| `SessionEffects.HeadExactly` | lib/spdylay_session.c:2361-2411 | payload is taken exactly on an own stream after SYN_REPLY and on the peer's unless it is being reset, before the peer's FIN; otherwise it is ignored |
| `SessionEffects.MidFrame` | lib/spdylay_session.c:2506-2693 | inside a DATA frame nothing is received but its bytes |
| `SessionEffects.BytesCount` | lib/spdylay_session.c:2640-2693 | what is taken counts for flow control, but for the last piece of a frame with FIN |
| `SessionEffects.BlockRefused` | lib/spdylay_session.c:1701-1707 | a header block that is not valid resets the stream with the status found |
| `SessionEffects.ResetReceived` | lib/spdylay_session.c:1840-1857 | a RST_STREAM received removes its stream, reports the close and queues nothing |
| `SessionEffects.PingAnswered` | lib/spdylay_session.c:1970-1991 | a PING of ours ends the wait for it, one of the peer's parity is sent back, any other is ignored |
| `SessionEffects.LimitBinds` | lib/spdylay_session.c:1922-1969 | the first limit on streams in a SETTINGS frame is the one that binds SYN_STREAM frames |
| `SessionEffects.SettingsAnnounced` | lib/spdylay_submit.c:224-261 | settings are queued only if known and not repeated, and hold here from then on |
| `SessionEffects.ReadsExactly` | lib/spdylay_session.c:718-729 | a DATA frame may take up to 4096 bytes, and with flow control no more than the window |
| `SessionEffects.GoesExactly` | lib/spdylay_session.c:1500-1550 | the next item goes into the frame buffer exactly if it may be sent and packed, DATA within the window, and with which frame |
| `SessionEffects.DataExactly` | lib/spdylay_session.c:2800-2843 | the DATA frame has the bytes read, and FIN exactly as the last one of an item with FIN |
| `SessionEffects.DataOtherwise` | lib/spdylay_session.c:1126-1162 | every DATA item that does not go waits on its stream or is dropped, with INTERNAL_ERROR exactly for a temporary failure |
| `SessionEffects.SynGoes` | lib/spdylay_session.c:942-1003 | a SYN_STREAM goes with the next ID and opens a stream with its priority |
| `SessionEffects.DataStops` | lib/spdylay_session.c:1425-1429 | a DATA item is done with its last frame, or when its stream no longer takes DATA, and is read again otherwise |
| `SessionEffects.CallQueues` | lib/spdylay_submit.c:30-280 | every call queues exactly the frame asked for, with the priority of its kind or stream, or nothing |
| `SessionEffects.ResumeWakes` | lib/spdylay_session.c:2872-2886 | exactly a DATA item its application has deferred is queued again |
| `SessionEffects.UrgentFirst` | lib/spdylay_session.c:366-430 | in every reachable queue PING is before SETTINGS and both before the frames of streams, which go by priority and in order of submission |
| `SessionEffects.PingOvertakes` | lib/spdylay_session.c:402-405 | a PING is sent next unless PING or SYN_STREAM frames wait |
| `SessionRuns.Step` | lib/spdylay_session.c:1497-2750 | every application call, send-loop step and received frame keeps the invariant and the credit bound, and GOAWAY flags and, under them, the set of streams move one way |
| `SessionRuns.Reached` | lib/spdylay_session.c:139-302 | every session reachable from a new one keeps the invariant and the credit bound |
| `SessionRuns.InitOk` | lib/spdylay_session.c:139-302 | a new client or server session has them |
| `SessionMoves.OpenStreamKeeps` | lib/spdylay_session.c:470-496 | opening an ID that is taken and that no stream and no event has keeps the invariant, and the map does not refuse it |
| `SessionSend.TakeIdKeeps` | lib/spdylay_session.c:974-976 | the ID assigned is of our parity, not in the map, and no event has it |
| `SessionSend.PopNext` | lib/spdylay_session.c:1210-1271 | takes a SYN_STREAM whenever it takes anything and one is queued; nothing else changes |
| `SessionAnswers.AddFrameQueues` | lib/spdylay_session.c:350-448 | the frame is in the queue of its kind with the priority of its stream or kind and a new number, no other item is new, and a stream to be reset is marked |
| `SessionAnswers.FailQueuesGoaway` | lib/spdylay_session.c:75-80 | GOAWAY is queued and the session is to end once it is sent |
| `SessionAnswers.CloseReports` | lib/spdylay_session.c:498-521 | closing moves the counter of its side by one, frees a deferred item, and reports the close except of a stream whose SYN_STREAM never went out |
| `SessionAnswers.SynStreamGoes` | lib/spdylay_session.c:942-1003 | a SYN_STREAM becomes active, with the next ID and an open stream, exactly when it may; the ID is used up even if packing fails |
| `SessionAnswers.DataGoes` | lib/spdylay_session.c:1126-1162 | a DATA item is sent exactly within the window, deferred exactly without window or on request, and answered with RST_STREAM exactly on a temporary failure |
| `SessionAnswers.DataYields` | lib/spdylay_session.c:1429-1489 | a DATA item with more to send is queued again exactly when something more urgent waits; otherwise it is sent on exactly if there is window and the callback reads within it |
| `SessionAnswers.SynStreamOpens` | lib/spdylay_session.c:1709-1789 | a SYN_STREAM opens a stream exactly when its ID is new and of the peer's parity, it is valid, no GOAWAY is in play, and a half is left to use |
| `SessionAnswers.SynReplyAnswered` | lib/spdylay_session.c:1791-1838 | answered with RST_STREAM exactly unless it is for an own stream with an open reading half that waits for it or is being reset |
| `SessionAnswers.HeadersAnswered` | lib/spdylay_session.c:2060-2111 | answered with RST_STREAM exactly unless the reading half is open and, on an own stream, SYN_REPLY came, or the stream is being reset |
| `SessionAnswers.DataAnswered` | lib/spdylay_session.c:2361-2411 | answered with RST_STREAM exactly unless it may be received or the stream is being reset |
| `SessionAnswers.DataEnds` | lib/spdylay_session.c:2361-2411 | the peer's FIN is accepted exactly from a DATA frame that may be received |
| `SessionAnswers.BytesHandedOn` | lib/spdylay_session.c:2640-2693 | every piece of payload is handed on exactly when the frame could be received, and is followed by another event exactly if it is the last piece of a frame with FIN that may be received |
| `SessionAnswers.WindowUpdateAnswered` | lib/spdylay_session.c:2007-2045 | refused exactly when it takes the window past 2^31 - 1, added otherwise |
| `SessionAnswers.CountRule` | lib/spdylay_session.c:2444-2478 | received bytes are counted up to 2^31 - 1, and credited exactly when they reach half the initial window and the option is off |
| `SessionEngine.StreamRecord.constructor` | lib/spdylay_stream.c:29-50 | a new stream record |
| `SessionEngine.StreamRecord.Shutdown` | lib/spdylay_stream.c:59-62 | raises the given flags and changes nothing else |
| `SessionEngine.StreamRecord.DeferData` | lib/spdylay_stream.c:81-88 | fills a free deferred slot |
| `SessionEngine.StreamRecord.DetachDeferred` | lib/spdylay_stream.c:90-94 | empties it |
| `SessionEngine.StreamRecord.UpdateInitialWindowSize` | lib/spdylay_stream.c:96-102 | shifts the window |
| `SessionEngine.Engine.constructor` | lib/spdylay_session.c:139-302 | a new session object holds the initial session |
| `SessionEngine.Engine.QueueFrame` | lib/spdylay_session.c:350-448 | the object moves as AddFrame, of which AddFrameQueues says what it does; no other record changes |
| `SessionEngine.Engine.Open` | lib/spdylay_session.c:470-496 | the object moves as OpenStream, with a fresh record |
| `SessionEngine.Engine.Close` | lib/spdylay_session.c:498-521 | the object moves as CloseStream |
| `SessionEngine.Engine.ShutDown` | lib/spdylay_session.c:523-532 | flags first and closing second comes to Shut |
| `SessionEngine.Engine.AfterSent` | lib/spdylay_session.c:1273-1495 | the object moves as AfterFrameSent |
| `SessionEngine.Engine.UpdateInitialWindowSize` | lib/spdylay_session.c:1897-1909 | the loop over the records in ascending order computes AdjustWindows |
| `SessionEngine.Engine.SettingsReceived` | lib/spdylay_session.c:1922-1969 | the loop over the entries, with the array of settings seen, computes OnSettings |
| `SessionEngine.Engine.SendRound` | lib/spdylay_session.c:1500-1585 | one round of the loop is one or two steps of a run; it stops only when nothing can be sent or the send callback takes nothing |
| `SessionEngine.Engine.Send` | lib/spdylay_session.c:1497-1587 | the whole loop is a run of send steps from the session before, and stops early only when nothing can be sent or a send callback took nothing |
| `SessionEngine.Engine.Handle` | lib/spdylay_session.c:1497-2750 | any application call, send-loop step or received frame moves the object as Step moves the session |
| `SessionEngine.Drive` | lib/spdylay_session.c:139-2750 | whatever happens to an object from its creation on, it holds the reachable session of the same inputs |
| `FrameWire.HeaderRead` | lib/spdylay_frame.c:61-77 | a header written in network order is read back: kind of frame, version, type, stream ID, flags and length |
| `FrameWire.BlockBehindFields` | lib/spdylay_frame.h:52-59 | the name/value block is looked for right behind the fixed fields of each frame type |
| `FrameWire.FramesArrive` | lib/spdylay_session.c:2506-2693 | the bytes of whole frames are cut where they were put together |
| `FrameWire.ReceiveFrames` | lib/spdylay_session.c:2506-2693 | for every list of frames and every cut of their bytes into calls, each frame is handled once and in order |
| `FrameWire.ExactlyTheFrames` | lib/spdylay_session.c:2506-2693 | a session that records what it is handed has exactly those frames with their payloads |
| `FrameReceiver.FeedStable` | lib/spdylay_session.c:111-123 | between bytes header and payload offsets are within bounds and no complete frame is left unprocessed |
| `FrameReceiver.OneFrame` | lib/spdylay_session.c:2506-2693 | one frame through the automaton is one frame processed whole, with the same error codes and decompressor state |
| `FrameReceiver.LeavesRemainder` | lib/spdylay_session.c:2506-2693 | an incomplete frame leaves exactly the partial header, or the header with the received part of the payload stored, delivered, inflated or ignored as a whole |
| `FrameReceiver.AutomatonIsSplitter` | lib/spdylay_session.c:2506-2693 | on every byte string the automaton does what the splitter does: whole frames, then the closed form of an incomplete one |
| `InboundFrame.Inbound.MemRecv` | lib/spdylay_session.c:2506-2693 | the loop consumes everything and its state is the automaton's; offsets stay within payload and buffer |
| `InboundFrame.Inbound.MemRecvAll` | lib/spdylay_session.c:2506-2693 | for every byte string and every way of cutting it into calls, the calls leave what the splitter makes of the whole string |
| `InboundFrame.Inbound.StartPayload` | lib/spdylay_session.c:2540-2590 | the header is classified as in the automaton |
| `InboundFrame.Inbound.Reset` | lib/spdylay_session.c:111-123 | back to the state before a header |
| `Hash.HashShiftInjective` | lib/spdylay_map.c:139-148 | hash32shift is injective on 32-bit keys |
| `Hash.HashLines` | lib/spdylay_map.c:139-148 | the hash is the function of the source line by line |
| `Hash.XorBit` | lib/spdylay_map.c:139-148 | exclusive-or has exactly the bits in which its operands differ |
| `Hash.ShrDivides` | lib/spdylay_map.c:139-148 | a right shift divides by the power of two |
| `Treap.InsertKeeps` | lib/spdylay_map.c:199-251 | insertion keeps search and heap order and adds exactly the entry |
| `Treap.RemoveKeeps` | lib/spdylay_map.c:268-331 | removal keeps them and removes exactly the key |
| `Treap.RootIsLeast` | lib/spdylay_map.c:199-251 | the entry on top has the least priority |
| `Treap.LookupFinds` | lib/spdylay_map.c:253-266 | the search finds an entry if and only if its key is there |
| `Treap.CanonicalShape` | lib/spdylay_map.c:150-155 | two treaps with the same keys have the same shape |
| `Treap.HistoryIndependent` | lib/spdylay_map.c:199-331 | any two histories of insertions and removals that end with the same keys end with the same shape |
| `StreamMap.RotateLeft` | lib/spdylay_map.c:157-176 | the pointers left behind are those of the rotated tree, in its surroundings |
| `StreamMap.RotateRight` | lib/spdylay_map.c:178-197 | likewise to the right |
| `StreamMap.Map.Find` | lib/spdylay_map.c:253-266 | returns the entry with the key, or null exactly when there is none |
| `StreamMap.Map.Insert` | lib/spdylay_map.c:199-251 | the linked structure becomes the treap insertion; INVALID_ARGUMENT exactly on a duplicate, which changes neither the map nor the refused entry; size is the number of entries |
| `StreamMap.Map.Remove` | lib/spdylay_map.c:268-331 | the linked structure becomes the treap removal; INVALID_ARGUMENT exactly on a missing key |
| `MapTraversal.TraverseInOrder` | lib/spdylay_map.c:101-113 | the in-order successor by parent pointers |
| `MapTraversal.Each` | lib/spdylay_map.c:115-132 | visits entries in order until the callback returns non-zero, and all of them if it never does |
| `MapTraversal.TraversePostOrder` | lib/spdylay_map.c:63-78 | the next entry to free |
| `MapTraversal.EachFree` | lib/spdylay_map.c:80-97 | hands out every entry once, in post-order, with the entries freed so far scrambled |
| `MapTraversal.NeverFreed` | lib/spdylay_map.c:80-97 | no entry the walk may still follow has been freed |
| `TreapPath.InOrderAscends` | lib/spdylay_map.c:115-132 | in-order lists every entry once in ascending key order |
| `TreapPath.PostOrderOnce` | lib/spdylay_map.c:80-97 | post-order lists every entry exactly once |
| `TreapPath.LeftFirst` | lib/spdylay_map.c:80-97 | and of two entries neither of which is below the other the smaller comes first |
| `TreapPath.ChildrenFirst` | lib/spdylay_map.c:80-97 | in post-order no entry comes before one below it |
| `HeaderWire.WordOrder` | lib/spdylay_frame.h:61-67 | a length is written in network order: byte k is the digit of its place, the highest first |
| `HeaderWire.NumberOrder` | lib/spdylay_frame.h:61-63 | and so it is read |
| `HeaderWire.NumberLess` | lib/spdylay_frame.h:61-63 | the first byte that differs decides which of two lengths is greater |
| `HeaderWire.ParsedWords` | lib/spdylay_frame.c:118-169 | a block that is accepted begins with its count and the length of the first name in network order |
| `HeaderWire.WordNumber` | lib/spdylay_frame.c:53-55 | a length that fits is read back from its word |
| `HeaderWire.ParseExact` | lib/spdylay_frame.c:118-169 | a byte string parses to entries if and only if their count and lengths fit and it is their block with nothing behind it |
| `HeaderWire.SplitJoin` | lib/spdylay_frame.c:218-233 | joining a value with NUL appends it as one part |
| `HeaderWire.GroupPairs` | lib/spdylay_frame.c:272-305 | splitting the grouped entries gives the list of pairs back, in order |
| `HeaderPack.CountNvSpace` | lib/spdylay_frame.c:249-270 | the sum is the length of the block of the grouped pairs |
| `HeaderPack.PackNv` | lib/spdylay_frame.c:272-305 | the buffer holds exactly that block, with patched lengths and count, the result is its length, and count and first length are in network order |
| `HeaderPack.PackedBlock` | lib/spdylay_frame.c:78-101 | counting, reserving and packing fill the space exactly |
| `HeaderUnpack.CountUnpackNvSpace` | lib/spdylay_frame.c:118-169 | succeeds if and only if the content is a well-formed block; counts the pairs and the bytes of the copied strings |
| `HeaderUnpack.FillTable` | lib/spdylay_frame.c:189-233 | every counted byte and row is written and none beyond; the flag tells whether some name is empty or has a forbidden byte, or some value part but the last is empty |
| `HeaderUnpack.UnpackNv` | lib/spdylay_frame.c:171-247 | invalid frame exactly for malformed content; invalid block exactly for a bad name, an empty inner part or two entries with one name; otherwise the name-sorted table of exactly the pairs |
| `HeaderTable.DerefRows` | lib/spdylay_frame.c:196-233 | the pointers of row k, read as C strings, are pair k |
| `HeaderTable.ClashIsDuplicate` | lib/spdylay_frame.c:236-245 | two rows with equal names and different pointers exist exactly when two entries share a name |
| `NameSorting.LeqDecides` | lib/spdylay_frame.c:348-354 | names are compared by the first byte that differs, a prefix before what it begins |
| `HeaderTable.NamesExact` | lib/spdylay_frame.c:198-210 | a name is refused exactly if it is empty or has a character that cannot be printed or a capital |
| `NameSorting.NameSort` | lib/spdylay_frame.c:348-354 | some name-sorted permutation |
| `NameSorting.NeighboursDecide` | lib/spdylay_frame.c:236-245 | whatever the order of equal names, comparing neighbours finds a clash if and only if there is one |
| `NameSorting.FindConflict` | lib/spdylay_frame.c:238-245 | the loop finds a conflict between neighbours if and only if there is one |
| `HeaderRoundTrip.RoundTripExact` | lib/spdylay_frame.c:171-305 | for a name-sorted list: its block parses back exactly when counts and lengths fit, gives the list back, has distinct names, and is valid exactly when names are good and only closing values are empty |
| `HeaderRoundTrip.PackThenUnpack` | lib/spdylay_frame.c:171-305 | packed, written to chunks and decoded, the list comes back as the same multiset of pairs sorted by name, exactly when names are good and only closing values of a name are empty |
| `ChunkBuffer.Buffer.constructor` | lib/spdylay_buffer.c:33-45 | a new buffer is empty |
| `ChunkBuffer.Buffer.Reset` | lib/spdylay_buffer.c:150-155 | the content is gone, the chunks stay |
| `ChunkBuffer.Buffer.Alloc` | lib/spdylay_buffer.c:58-82 | a chunk is appended or reused, and the content grows by what was left of the current one |
| `ChunkBuffer.Buffer.Write` | lib/spdylay_buffer.c:105-123 | the content grows by exactly the data, across chunk boundaries, and so does the length |
| `ChunkBuffer.Buffer.Serialize` | lib/spdylay_buffer.c:135-148 | the result starts with the content, and is the content exactly when no reusable chunk lies past the current one |
| `ChunkBuffer.SerializeStale` | lib/spdylay_buffer.c:135-155 | a buffer written to and then reset has length zero but serializes to something |
| `ChunkBuffer.Reader.constructor` | lib/spdylay_buffer.c:157-163 | a reader has the whole content before it |
| `ChunkBuffer.Reader.Data` | lib/spdylay_buffer.c:186-202 | returns the next bytes in order and moves past them |
| `ChunkBuffer.Reader.Advance` | lib/spdylay_buffer.c:204-218 | moves past them |
| `ChunkBuffer.ReadBack` | lib/spdylay_buffer.c:33-202 | for every history of writes and resets the reader returns exactly the bytes written since the last reset, and the recorded length is their number |
| `PriorityQueue.PushImplements` | lib/spdylay_pq.c:65-89 | pushing on the heap is inserting into the sorted queue |
| `PriorityQueue.PopImplements` | lib/spdylay_pq.c:111-118 | popping the heap is dropping the head of the sorted queue |
| `PriorityQueue.TopIsFirst` | lib/spdylay_pq.c:52-63 | the top of the heap is the head of the sorted queue |
| `PriorityQueue.DrainsInOrder` | lib/spdylay_pq.c:91-118 | draining the heap yields the sorted queue: increasing priority, first in first out within one |
| `PriorityQueue.Pq.Push` | lib/spdylay_pq.c:65-89 | the array holds the pushed heap; it may be reallocated |
| `PriorityQueue.Pq.Pop` | lib/spdylay_pq.c:111-118 | the array holds the popped heap; an empty one is left alone |
| `PriorityQueue.Pq.BubbleUp` | lib/spdylay_pq.c:52-63 | in place, the item rises as in the specification |
| `PriorityQueue.Pq.BubbleDown` | lib/spdylay_pq.c:91-109 | in place, the item sinks as in the specification |
| `SessionTypes.EnqueueCounts` | lib/spdylay_session.c:99-109 | queueing adds exactly the item |

## Left out

- zlib and gzip: the inflater is an arbitrary per-byte streaming function, deflation is not modelled.
- Out-of-memory paths and failed reallocation: allocation succeeds.
- Application callbacks: their results are arbitrary parameters; they do not call back into the session. A fatal callback error is where the list of rounds given to `Engine.Send` ends.
- CREDENTIAL frames, client certificates and associated-content counters.
- Pushed-stream lists: a RST_STREAM with CANCEL also closes the streams pushed for its stream (lib/spdylay_session.c:1343-1354, 1847-1853), which the model does not.
- Layouts of PING, RST_STREAM, SETTINGS, GOAWAY and WINDOW_UPDATE frames, and the SPDY/2 translation of header names.
- Version mismatches of received control frames other than SYN_STREAM, which the library ignores frame by frame.
- Two sessions: the wires of `TwoSessions` carry the stream's DATA frames, its WINDOW_UPDATE frames and SETTINGS frames with an initial window; every other frame may arrive at either end at any time, which covers what the other session sends. Because SYN_STREAM and SYN_REPLY are among those, that the stream's DATA and WINDOW_UPDATE frames arrive behind the frame that opens it is assumed (`Allowed`), as are initial windows below 2^31, grants of 32 bits, and memory for packing WINDOW_UPDATE and SETTINGS frames. That runs drain is proved of the protocol (`Progress`, `Drains`) and not of the pair, where it depends on both applications and on what else is queued.
- Link between layers: the session takes received frames as already decoded, so `FrameReceiver`, `HeaderUnpack` and `StreamMap` are proved on their own and not composed with `SessionEngine` into one program.
- Outbound queues: those of `SessionEngine` are sequences in the order in which `PriorityQueue` proves the heap drains, not heap objects.
- InboundFrame.Inbound.MemRecv: the payload buffer is a sequence with the bound bufmax rather than a reallocated array; a SYN_STREAM, SYN_REPLY or HEADERS payload too short for its name/value block hands over only the bytes received, where the code also passes stale buffer bytes to a frame parser that then reports an invalid frame; WINDOW_UPDATE batching depends on how bytes are cut and belongs to the session model.
- FlowSession.ChargeIsStep: stops where the frame is out; what follows is the Pack step of `Endpoints.PushLast`, and `Endpoints.StepAtA` has the whole.
- FlowControl.LoweringExact: one announcement from a drained state; what holds in every drained state of every run is `QuiescentExact`.
- NameSorting.NameSort: the sort works on a sequence of pointer pairs; only sortedness and permutation are used, as qsort promises no more.
- MapTraversal.Each: the callback is a function of the key that does not touch the map.
- Window arithmetic is over mathematical integers, with the conversion of a 32-bit setting to the signed window. The code checks overflow of WINDOW_UPDATE but not of SETTINGS (lib/spdylay_stream.c:100-101): where a peer drives the window out of 32 bits, as with credit up to 2^31 - 1 and then a larger initial window, C leaves the result undefined and the model does not follow. `WindowsFit` shows that two sessions with backed grants and whole frames never get there.
- Sizes of header blocks are not bounded by the width of size_t.
- Order of callbacks within one operation: the log records an operation's events in the order in which its effects are complete, so the release of a deferred item precedes the close callback of its stream.
- src/, examples/, the Python wrapper, lib/spdylay_queue.c and lib/spdylay_npn.c.
