# Railway protocol stack: models and proofs

This project models a small railway stack in Dafny and proves properties of the
model. A simplified interlocking (Cloud IXL) drives a PDI command and
confirmation machine; SCI telegrams travel over the RaSTA safety and
retransmission (SR) layer, which runs over the RaSTA redundancy layer with
several transport channels. `dafny verify dfyconfig.toml` checks everything.

## How it is laid out

- SR layer: `SrEndpoint` gives each handler and thread step as one atomic
  function, since all run under the connection lock. `SrWorld` joins two
  endpoints by a lossy link per direction. `SrInvariant`, `SrSender`,
  `SrSenderSteps`, `SrReceiver`, `SrReceiverSteps` and `SrSafety` prove order
  without duplicates for unbounded numbers, `SrConservation` and `SrDelivery`
  that nothing is lost, `SrRefinement` carries both to the 32-bit program,
  `SrTurn` replaces the condition by a count of packets, `SrCleanAnswers` shows
  that the condition is exact. `SrLimits`, `SrAliasing` and `SrLosses` give the exact
  conditions of the queue and a run for each that fails, `SrStall` a way to wait for
  ever. `SrClosing` and `SrEffects` say what each event does to a side, `SrReading`
  what the application reads. `SrConnection` is the connection object updated in
  place.
- Redundancy layer: `DeferQueue` (the array of slots) and `RedundancyChannel`
  (the channel object) in place, `RedundancyAsWritten` (their steps and runs),
  `RedundancyOrder` (when order holds) and `RedundancyMishaps` (a run in which it
  does not). `Redundancy` has the receive path with the search that the header
  describes, `Layers` what its FIFO takes, `QueueAsMap` and `RedundancyAgreement`
  when the two agree.
- Both together: `Pipes` (a redundancy channel seen from above) and
  `SrOverRedundancy` (two endpoints over two of them).
- Checksums: `CrcBits` (division of binary polynomials), `CrcWords`, `CrcMirror`,
  `Crc` (the table-driven program), `CrcErrors` (what it finds), `CrcOptions` (what
  tells the offered options apart), `Md4`, `Blake2`.
- Interlocking and PDI: `Interlocking`, `PdiMachine` (the threads), `PdiSafety`,
  `PdiCommands` (orders and the bytes on the signal), `PdiMonitor` (the shared state behind its lock).
- Codecs: `ByteOrder`, `SrPackets`, `RedundancyPackets`, `MessageData`, `Sci`,
  `FullStack`, `FrameDamage`.
- Containers: `HashMap`, `Fifo`; `Words` and `Wrappers` hold shared definitions.

## What the proofs found

- In order and none twice is not true of every run. An entry that heartbeats
  confirmed stays in the retransmission queue; 2^32 numbers later it looks
  confirmed again, the removal stops there, and a message already handed up is
  resent and handed up twice (`SrAliasing.HandedUpTwice32`). The removal is clean
  exactly under `SrLimits.TrimIsCleanIff`, and exactly then nothing already passed
  on is resent (`SrCleanAnswers.CleanAnswerIff`). Where it is clean at every
  answered request order holds for runs of any length (`SrRefinement.EndToEnd32`);
  fewer than 2^32 - 2 numbers on each side are enough (`SrTurn.EndToEndOneTurn`).
- SR delivery is not complete either. When the confirmed number is no longer
  queued, `sr_remove_confirmed_messages` empties the retransmission queue
  (`SrLimits.TrimIsSafeIff`, `SrLimits.LossyRun`). A full receive buffer, packets
  of ten messages and a packet 2^32 numbers ahead also lose messages (`SrLosses`).
  With all four excluded nothing is lost, and delivery is exactly once
  (`SrConservation.NothingIsLost`, `SrDelivery.ExactlyOnce32`).
- In state RETRRUN data in sequence would be counted but not handed up. It does
  not occur: up to the closing heartbeat there is only retransmitted data
  (`SrConservation.OnlyResentInRetransmission`).
- A heartbeat sets `cs_r` to `sn_t - 1`, so packets that left the peer before it
  learned of the last packet are discarded
  (`SrLimits.HeartbeatDiscardsOlderConfirmations`).
- A heartbeat ahead of sequence makes the receiver wait for a retransmission
  response, but no request is sent (the source marks the place as to be done).
  Nothing is handed up to it any more, whatever follows
  (`SrStall.HeartbeatGapStalls32`).
- The redundancy receiver counts in 64 bits and compares with 32-bit frame
  numbers: nothing is accepted after 2^32 frames (`Redundancy.NothingAfterWraparound`).
- `find_index` compares only the first slot's number, so it meets its
  description (src/rasta/headers/rastadeferqueue.h:69-129) only for the first
  element (`DeferQueue.AsWrittenIff`). Numbers already passed can stay in the
  slots (`RedundancyMishaps.OldNumberStays`), a timeout looks at all slots, and it
  can set `seq_rx` back and hand a frame up twice
  (`RedundancyMishaps.TimeoutGoesBack`). Order holds exactly while each timeout
  finds no slot number below `seq_rx` (`RedundancyOrder.RunSecureIff`), and under
  that check one healthy channel is enough and the SR results carry over
  (`RedundancyOrder.HealthyChannelSufficesRaw`,
  `SrOverRedundancy.EndToEndOverChannels`). When a run agrees with the described
  one is `RedundancyAgreement.RunAgreesIff`.
- A deferred packet is given a new SR checksum, a packet delivered at once keeps
  its own (`SrPackets.DeferredPathCertifies`, `SrPackets.DirectPathKeepsBytes`).
- On a host with the high byte first, a 16-bit CRC is written as two zero bytes
  (`FrameDamage.CheckBytesTell`).
- Option B, whose divisor has an odd number of terms, misses some odd numbers of
  wrong bits; C, D and E miss none (`CrcErrors.OddErrorsIff`).
- The PDI version handler checks the state and writes it in two critical
  sections; a failure in between is overwritten (`PdiSafety.FailureInGapIsLost`).
  An establishment belongs to one session exactly when nothing writes there
  (`PdiSafety.OneSession`).
- A put under a present key spoils the hash map's count or duplicates the key
  (`HashMap.StoreSoundIff`); the callers insert only after a failed lookup.
- An error left by a too short SR packet stays pending and makes later encodings
  leave their buffers unwritten (`SrPackets.Module.ModuleToBytes`).
- The comment in `generateBlake2` speaks of eight zero bytes for hash type 0; the
  call sets none (src/rasta/c/rastablake2.c:11-15), and the model follows the call.

## Model

| member | source | states |
|---|---|---|
| SrSafety.EndToEnd | src/rasta/c/rasta_new.c:930-1142 | For every run of two established endpoints, of any length, in which whatever is resent was not confirmed by the request (one check on the queue for each answered request): the messages handed up are a subsequence, in order and none twice, of those given to sr_send, in both directions, whatever is lost and however often retransmission happens. |
| SrRefinement.EndToEnd32 | src/rasta/c/rasta_new.c:1146-1290 | The same for the 32-bit counters of the program, starting anywhere in the 32-bit range and across any number of wraparounds, under the same check at each answered request. |
| SrCleanAnswers.CleanAnswerIff | src/rasta/c/rasta_new.c:1008-1076 | That check is exact: after any run whose requests were answered cleanly and whose numbers taken over were the expected ones, the next answer resends nothing already passed to the peer's receive buffer if and only if it passes the check. |
| SrCleanAnswers.AnswerKeepsIff | src/rasta/c/rasta_new.c:1008-1076 | In every such state answering a request keeps the joint invariant if and only if the answer passes the check. |
| SrAliasing.HandedUpTwice32 | src/rasta/c/rasta_new.c:311-342 | The check is needed: a run of the 32-bit program, from the handshake, in which one message is lost, [7, 8, 9, 10] is submitted and [7, 8, 8] handed up. |
| SrAliasing.HandedUpTwice | src/rasta/c/rasta_new.c:311-342 | The same run over unbounded numbers, with the whole history of the direction. |
| SrLimits.TrimIsCleanIff | src/rasta/c/rasta_new.c:311-342 | Nothing at or below the confirmed number survives the removal if and only if the entry it stops at, the first one equal modulo 2^32, is followed only by entries above that number. |
| SrLimits.TrimIsSafeIff | src/rasta/c/rasta_new.c:311-342 | The removal keeps every unconfirmed packet if and only if the entry it stops at is confirmed or, if it stops at none, all are; for any ascending queue, inside the 32-bit window or not. |
| SrLimits.TrimInWindowIff | src/rasta/c/rasta_new.c:311-342 | Inside the window the removal is always clean, and safe if and only if the confirmed number is queued or nothing above it is. |
| SrSafety.WindowIsClean | src/rasta/c/rasta_new.c:311-342 | A run whose remembered numbers never lie 2^32 or more behind sn_t answers every request cleanly. |
| SrTurn.EndToEndOneTurn | src/rasta/c/rasta_new.c:1146-1290 | The same end-to-end result with a count of packets for a condition: neither side has used up 2^32 - 2 numbers. |
| SrTurn.TurnStays | src/rasta/c/rasta_new.c:393-421 | Such a run stays in the 32-bit window: nothing remembered or under way is numbered below the starting point. |
| SrConservation.NothingIsLost | src/rasta/c/rasta_new.c:930-1142 | Every message that sr_send accepted has been handed up, waits to be sent, or is in a queue entry above the peer's cs_t, in every run in which each removal is safe, the receive buffer has room for what is handed up, the number taken over is the expected one, and packets hold fewer than ten messages. |
| SrDelivery.ExactlyOnce | src/rasta/c/rasta_new.c:930-1142 | Complete delivery: if such a run also answers requests cleanly, then once the sending side has nothing waiting and nothing unconfirmed, the messages handed up are exactly the messages accepted, each once and in order, whatever was lost. |
| SrDelivery.ExactlyOnce32 | src/rasta/c/rasta_new.c:930-1142 | The same of the 32-bit program. |
| SrConservation.AcceptsWhatFits | src/rasta/c/rasta_new.c:1664-1736 | What accepted means: in state UP a call whose messages fit is accepted whole. |
| SrLosses.UnsafeTrimLoses | src/rasta/c/rasta_new.c:311-342 | Without the first guard a message is lost: accepted, neither handed up nor held, and not under way. |
| SrLosses.FullBufferLoses | src/rasta/c/rasta_new.c:283-305 | A receive buffer of twenty messages filled by four packets: the next message is confirmed and lost, with no packet lost and both sides UP. |
| SrLosses.BufferTakesAllIff | src/rasta/c/rasta_new.c:283-305 | Of a batch handed up the buffer keeps all messages if and only if there is room for all. |
| SrLosses.FullQueueLoses | src/rasta/c/rasta_new.c:1397-1455 | With ten messages to a packet the send step runs on a full retransmission queue and the eleventh packet is not remembered. |
| SrLosses.SkippedNumberLoses | src/rasta/c/rasta_new.c:393-421 | A packet 2^32 numbers ahead of the expected one passes for it, and what was lost in between is passed over. |
| SrConservation.OnlyResentInRetransmission | src/rasta/c/rasta_new.c:969-974 | In state RETRRUN the packets between the last number taken and the closing heartbeat are retransmitted data only, so data or requests in sequence do not occur there, as long as the numbers taken over are the expected ones. |
| SrTurn.OnlyResentInOneTurn | src/rasta/c/rasta_new.c:969-974 | In particular in every run in which neither side has used up 2^32 - 2 numbers. |
| SrTurn.TurnIsTrue | src/rasta/c/rasta_new.c:393-421 | In such a run every number taken over is the expected one. |
| SrOverRedundancy.EndToEndOverChannels | src/rasta/c/rasta_new.c:1146-1290 | The whole transport: two 32-bit endpoints over two redundancy channels whose transport channels lose, repeat, reorder and damage frames, the defer queue being the one described or the one written, whose timeouts then find no slot number below seq_rx: as long as neither side has sent 2^32 - 14 frames, messages arrive in order and none twice. |
| SrOverRedundancy.StackSimulates | src/rasta/c/rasta_red_multiplexer.c:795-815 | Every run of that stack is, for the endpoints, a run over links that only lose packets. |
| SrOverRedundancy.FewFramesOneTurn | src/rasta/c/rasta_new.c:180-207 | Fewer than 2^32 - 14 packets sent keep a side from using up its numbers, detached or not. |
| Pipes.MoveThins | src/rasta/c/rastaredundancy_new.c:69-273 | An arriving frame or a timeout only takes packets away from what a side may still read, with the described queue and with the written one, where the timeout must find no slot number below seq_rx. |
| SrSafety.StepKeeps | src/rasta/c/rasta_new.c:822-1142 | One handler, send, heartbeat, submit, disconnect or fetch step of either side, or the loss of any packet, keeps the joint invariant, provided a request it answers is answered cleanly; the core of the invariant is that no retransmission-queue entry numbered above the peer's cs_t holds a message the peer has handed up. |
| SrSafety.RunKeeps | src/rasta/c/rasta_new.c:1146-1290 | The joint invariant holds along every run that answers requests cleanly, whatever is lost. |
| SrSafety.EstablishedInv | src/rasta/c/rasta_new.c:620-802 | The state right after the handshake of a client and a server satisfies the joint invariant for any pair of initial numbers. |
| SrSafety.DeliveredIsSubsequence | src/rasta/c/rasta_new.c:283-305 | What the invariant says of a direction's history is enough for the handed-up messages to be a subsequence of the submitted ones. |
| SrSenderSteps.SenderStep | src/rasta/c/rasta_new.c:1367-1480 | Whatever an endpoint does, as sender of its direction it keeps the invariant of that direction, if a request it answers is answered cleanly. |
| SrReceiverSteps.ReceiverStep | src/rasta/c/rasta_new.c:930-1142 | Whatever an endpoint does, as receiver of the other direction it keeps that direction's invariant. |
| SrSender.SenderData | src/rasta/c/rasta_new.c:1397-1455 | Sending a batch under the next number and remembering it keeps the invariant. |
| SrSender.SenderRespond | src/rasta/c/rasta_new.c:543-614 | Answering a request by renumbering and resending the queue keeps the invariant. |
| SrReceiver.ReceiverHandUp | src/rasta/c/rasta_new.c:283-305 | Handing up the messages of the expected packet keeps the invariant. |
| SrReceiver.ReceiverRequest | src/rasta/c/rasta_new.c:956-966 | Asking for a retransmission keeps the invariant: all that is resent is still unseen. |
| SrReceiver.ReceiverResume | src/rasta/c/rasta_new.c:1078-1103 | Accepting the response and jumping to its number keeps the invariant. |
| SrReceiver.ReceiverPassive | src/rasta/c/rasta_new.c:969-974 | A packet whose messages are not handed up, such as a heartbeat or a request, keeps the invariant. |
| SrSenderSteps.HandleRetrReqIs | src/rasta/c/rasta_new.c:1008-1076 | The complete effect of a retransmission request on a queue within its capacity: the response, each remaining packet under a new consecutive number, a closing heartbeat, and the new state; in state RETRRUN only a disconnection leaves. |
| SrInvariant.RetransmitAllIs | src/rasta/c/rasta_new.c:543-614 | The retransmission loop resends and requeues each buffered packet under consecutive new numbers, in order, with its messages. |
| SrInvariant.RemoveConfirmedCuts | src/rasta/c/rasta_new.c:311-342 | Inside the window the confirmed packets are removed exactly up to the confirmed number, or the queue is emptied; nothing at or below it remains. |
| SrLimits.LossyRun | src/rasta/c/rasta_new.c:311-342 | A concrete run with one lost packet in which two submitted messages are never handed up although both sides end in state UP: delivery is not complete. |
| SrLimits.HeartbeatDiscardsOlderConfirmations | src/rasta/c/rasta_new.c:822-928 | After an accepted heartbeat, a packet passes the confirmation check before this side sends again if and only if it confirms the very last packet sent. |
| SrSafety.CountersAdvance | src/rasta/c/rasta_new.c:393-421 | Along every run C = cs_r never moves back, stays below T = sn_t, T never moves back, and sn_r = cs_t + 1. |
| SrSafety.StepConfirms | src/rasta/c/rasta_new.c:410-421 | A step moves cs_r only forward and only to a number below sn_t. |
| SrSafety.AcceptedConfirmation | src/rasta/c/rasta_new.c:410-421 | A confirmation that passes the unsigned 32-bit check lies between cs_r and the last number sent. |
| SrRefinement.Counters32 | src/rasta/c/rasta_new.c:393-421 | The 32-bit sn_t and cs_r are T and C modulo 2^32 with C < T, and sn_r = cs_t + 1 modulo 2^32, in every run in the window. |
| SrRefinement.LowRun | src/rasta/c/rasta_new.c:1146-1290 | With no assumption: the 32-bit machine is the exact image modulo 2^32 of the machine with unbounded numbers, run for run. |
| SrRefinement.LowReceive | src/rasta/c/rasta_new.c:822-1142 | One received packet is handled alike with 32-bit and unbounded numbers, because every check depends on numbers modulo 2^32. |
| SrRefinement.ConsecutiveNumbers32 | src/rasta/c/rasta_new.c:180-207 | In every run, window or not, the packets a side sends carry consecutive 32-bit numbers, disconnection requests aside. |
| SrSafety.ConsecutiveNumbers | src/rasta/c/rasta_new.c:180-207 | The same for unbounded numbers, and sn_t counts them while the channel exists. |
| SrSafety.RunBounded | src/rasta/c/rasta_new.c:543-614 | The retransmission queue never exceeds its capacity, so resending never drops a packet. |
| SrConnection.Connection.RemoveConfirmedMessages | src/rasta/c/rasta_new.c:311-342 | The popping loop computes the queue that SrEndpoint.RemoveConfirmed gives. |
| SrConnection.Connection.RetransmitQueue | src/rasta/c/rasta_new.c:543-614 | The two loops over the buffer compute SrEndpoint.RetransmitData. |
| SrConnection.Connection.AddAppMessages | src/rasta/c/rasta_new.c:283-305 | Pushing the messages one by one into the bounded buffer. |
| SrConnection.Connection.HandleHb | src/rasta/c/rasta_new.c:822-928 | Updates the connection in place as SrEndpoint.HandleHeartbeat says, in 32-bit arithmetic. |
| SrConnection.Connection.HandleDataPacket | src/rasta/c/rasta_new.c:930-1006 | Likewise for data. |
| SrConnection.Connection.HandleRetransmissionRequest | src/rasta/c/rasta_new.c:1008-1076 | Likewise for a retransmission request. |
| SrConnection.Connection.HandleRetransmissionResponse | src/rasta/c/rasta_new.c:1078-1103 | Likewise for a retransmission response. |
| SrConnection.Connection.HandleRetransmittedData | src/rasta/c/rasta_new.c:1105-1144 | Likewise for retransmitted data. |
| SrConnection.Connection.ReceivePacket | src/rasta/c/rasta_new.c:1194-1290 | The checks before the handlers and the choice of the handler. |
| SrConnection.Connection.SendQueued | src/rasta/c/rasta_new.c:1397-1455 | The send step. |
| SrConnection.Connection.Beat | src/rasta/c/rasta_new.c:1294-1365 | One pass of the heartbeat thread over a connection. |
| SrConnection.Connection.SubmitMessages | src/rasta/c/rasta_new.c:1664-1736 | sr_send: queued in UP, refused with a disconnection during a retransmission. |
| SrConnection.Connection.GetReceivedData | src/rasta/c/rasta_new.c:1718-1736 | sr_get_received_data: the oldest message of the receive buffer, which loses it. |
| SrReading.FetchReads | src/rasta/c/rasta_new.c:1718-1736 | A fetch reads the oldest buffered message whenever there is one. |
| SrReading.HandedIsReadAndBuffered | src/rasta/c/rasta_new.c:1718-1736 | In every run, with 32-bit or unbounded numbers, the messages a receive buffer accepted are those its application has read so far, in that order, followed by those still buffered. |
| SrReading.ReadInOrder32 | src/rasta/c/rasta_new.c:1718-1736 | End to end for the application of the 32-bit program: what it reads is a subsequence, in order and none twice, of what the peer submitted, in every run that answers requests cleanly. |
| SrReading.ReadExactlyOnce32 | src/rasta/c/rasta_new.c:1718-1736 | Under the conditions of complete delivery, once the receive buffer is empty the application has read exactly the messages accepted from the peer, each once and in order. |
| SrClosing.LatePacketCloses | src/rasta/c/rasta_new.c:976-984 | A packet in sequence whose time stamp is not, data or heartbeat in UP or RETRRUN or retransmitted data in RETRRUN, closes the connection: nothing is taken over or handed up, and the last packet to leave is a disconnection request numbered sn_t. |
| SrClosing.RequestCloses | src/rasta/c/rasta_new.c:804-820 | A disconnection request that passes the checks closes the connection and is not answered. |
| SrClosing.TimerCloses | src/rasta/c/rasta_new.c:1294-1365 | When T_i has expired the connection is closed with a disconnection request; a heartbeat then due no longer leaves. |
| SrClosing.RefusalCloses | src/rasta/c/rasta_new.c:1664-1716 | sr_send during a retransmission closes with a disconnection request and queues nothing. |
| SrClosing.TransitionsIff | src/rasta/c/rasta_new.c:822-1142 | Each change of state by a received packet, exactly when it happens: to closed, to RETRRUN, back to UP, to waiting for a response. |
| SrClosing.RequestsIff | src/rasta/c/rasta_new.c:956-966 | A retransmission is requested exactly for data ahead of sequence in UP or RETRRUN or retransmitted data ahead of sequence in RETRRUN. |
| SrClosing.ShutForGood | src/rasta/c/rasta_new.c:480-500 | Whatever follows, a side that is closed and detached sends nothing and hands nothing up any more. |
| SrStall.HeartbeatGapStalls | src/rasta/c/rasta_new.c:918-925 | From any state that meets the joint invariant: after a heartbeat ahead of sequence the side waits for a response it has not requested, and in every continuation, whatever is sent or lost, nothing is handed up to it any more. |
| SrStall.HeartbeatGapStalls32 | src/rasta/c/rasta_new.c:918-925 | The same of the 32-bit program, after any run that answers requests cleanly. |
| SrEffects.ChecksOutIff | src/rasta/c/rasta_new.c:393-421 | A packet reaches its handler exactly if it is numbered up to ten times N_SENDMAX ahead of the expected number, a response aside, and confirms a number from the last confirmed one to the last one sent, all modulo 2^32. |
| SrEffects.OthersAreIgnored | src/rasta/c/rasta_new.c:1194-1250 | Any other packet changes nothing but the link it came from. |
| SrEffects.EffectOfPacket | src/rasta/c/rasta_new.c:822-1142 | Which received packets advance sn_r and cs_t, which set cs_r and to what, which shorten the retransmission queue, which messages go to the receive buffer; everything else stays. |
| SrEffects.SubmitQueues | src/rasta/c/rasta_new.c:1664-1716 | In UP a call of up to maxPacket messages is queued as far as there is room for twice as many, a longer one is dropped. |
| SrEffects.SendTakes | src/rasta/c/rasta_new.c:1367-1480 | A send pass takes the oldest messages, at most maxPacket, into one packet under the next number exactly if no more than maxPacket packets wait to be confirmed. |
| SrEffects.BeatSends | src/rasta/c/rasta_new.c:1294-1365 | Before T_i has expired the heartbeat pass sends a heartbeat under the next number if one is due, and does nothing otherwise. |
| SrEffects.DisconnectCloses | src/rasta/c/rasta_new.c:1738-1746 | sr_disconnect closes, with a disconnection request unless the connection is closed already. |
| Redundancy.HandedUpInOrder | src/rasta/c/rastaredundancy_new.c:69-273 | With the search as its header describes it, for every arrival order with loss, duplication, reordering and damage, and timeouts at any point: numbers handed up strictly increase, each carries what was sent under it, the defer queue holds only numbers above seq_rx and at most its capacity. |
| Redundancy.NumbersAreUnique | src/rasta/c/rasta_red_multiplexer.c:795-815 | While at most 2^32 frames were sent, a number names one frame. |
| Redundancy.NoGaps | src/rasta/c/rastaredundancy_new.c:139-258 | With the described search and without timeouts the numbers passed to the receive FIFO are exactly 0 to seq_rx - 1. |
| Redundancy.OneHealthyChannelSuffices | src/rasta/c/rastaredundancy_new.c:118-260 | With the described search: if one transport channel delivers every frame in order, then after its k-th frame seq_rx is at least k, up to 2^32, whatever the other channels and the timer do. |
| Redundancy.NothingAfterWraparound | src/rasta/c/rastaredundancy_new.c:148-176 | seq_rx is not reduced while frame numbers are: once it reaches 2^32 nothing is accepted any more. |
| Redundancy.DeliverSettles | src/rasta/c/rastaredundancy_new.c:69-111 | The delivery loop ends because the queue shrinks, leaves no deliverable frame, and only moves seq_rx forward. |
| Redundancy.ReceiveSettles | src/rasta/c/rastaredundancy_new.c:118-260 | Receiving any frame keeps the state between steps. |
| Redundancy.TimeoutSettles | src/rasta/c/rastaredundancy_new.c:262-273 | A timeout keeps it and moves seq_rx forward when the queue is not empty. |
| Redundancy.FrameFate | src/rasta/c/rastaredundancy_new.c:118-260 | Which frames are passed on, which wait and which are dropped, exactly, with the described search. |
| Layers.LinkOnlyLoses | src/rasta/c/rastaredundancy_new.c:69-273 | With the described search the receive FIFO takes a subsequence of the frames sent and hands it on in that order. |
| RedundancyOrder.RunSecureIff | src/rasta/c/rastaredundancy_new.c:69-273 | With the search as the program writes it and any library sort by time: a run, with timeouts at any point, keeps the numbers passed on increasing and safe against any one further arrival throughout, if and only if each of its timeouts finds no slot, live or not, with a number below seq_rx. |
| RedundancyOrder.TimeoutSecureIff | src/rasta/c/rastaredundancy_new.c:262-273 | The same of one timeout: after it order holds, and still holds whatever arrives next, if and only if no slot held a number below seq_rx. |
| RedundancyOrder.InOrderWhenGuarded | src/rasta/c/rastaredundancy_new.c:69-273 | In every run whose timeouts meet that check, with loss, duplication, reordering and damage, the numbers passed on and those kept increase and lie below seq_rx. |
| RedundancyOrder.GenuineInEveryRun | src/rasta/c/rastaredundancy_new.c:69-273 | In every run, check or not, what is passed on was sent under its number. |
| RedundancyOrder.HealthyChannelSufficesRaw | src/rasta/c/rastaredundancy_new.c:118-260 | As written, in runs whose timeouts meet the check, one transport channel that delivers every frame in order is enough. |
| RedundancyOrder.NoGapsRaw | src/rasta/c/rastaredundancy_new.c:139-258 | As written and without timeouts the numbers passed on are exactly 0 to seq_rx - 1. |
| RedundancyOrder.FrameFate | src/rasta/c/rastaredundancy_new.c:118-260 | The same with the search as written. |
| RedundancyOrder.FoundIsLive | src/rasta/c/rastadeferqueue.c:12-24 | In every run the delivery loop's search never finds a leftover of a removed element. |
| RedundancyAgreement.RunAgreesIff | src/rasta/c/rastaredundancy_new.c:69-273 | A run as written, timeouts included, goes through the same states as the described one if and only if every search of each step finds its number in the first slot or nowhere, or meets a full queue, and each timeout on a queue that is not empty finds all slots used, the smallest number of all in a live one, and a delivery that searches right. |
| RedundancyAgreement.ReceiveAgreesIff | src/rasta/c/rastaredundancy_new.c:118-260 | The same of one received frame. |
| RedundancyAgreement.TimeoutAgreesIff | src/rasta/c/rastaredundancy_new.c:262-273 | The same of one timeout. |
| RedundancyMishaps.OldNumberStays | src/rasta/c/rastadeferqueue.c:12-24 | As written, frames 0, 3, 2, 1 and a second 2 leave number 2 queued with seq_rx at 4. |
| RedundancyMishaps.TimeoutGoesBack | src/rasta/c/rastaredundancy_new.c:262-273 | A timeout then sets seq_rx back and 2 is handed up again: a run that fails the check above. |
| RedundancyChannel.Channel.Receive | src/rasta/c/rastaredundancy_new.c:118-260 | rasta_red_f_receive, in place over the array of slots, computes RedundancyAsWritten.ReceiveRaw. |
| RedundancyChannel.Channel.DeliverDeferQueue | src/rasta/c/rastaredundancy_new.c:69-111 | The loop over contains, get and remove ends, and computes RedundancyAsWritten.DeliverRaw. |
| RedundancyChannel.Channel.DeferTmo | src/rasta/c/rastaredundancy_new.c:262-273 | Likewise for RedundancyAsWritten.TimeoutRaw. |
| DeferQueue.Queue.FindIndex | src/rasta/c/rastadeferqueue.c:12-24 | The loop compares the number it read from the first slot, so it finds that slot or nothing. |
| DeferQueue.Queue.Add | src/rasta/c/rastadeferqueue.c:69-95 | A full queue is left alone; otherwise the element joins the live ones, which are then sorted; the slots behind keep what they held. |
| DeferQueue.Queue.Remove | src/rasta/c/rastadeferqueue.c:97-126 | If the first slot has the number, the last live element takes its place, the live ones are sorted and the slot behind keeps its copy; otherwise nothing changes. |
| DeferQueue.Queue.Contains | src/rasta/c/rastadeferqueue.c:128-138 | True exactly when the first slot has the number. |
| DeferQueue.Queue.Get | src/rasta/c/rastadeferqueue.c:172-190 | The content of the first slot if it has the number, nothing otherwise. |
| DeferQueue.Queue.GetTs | src/rasta/c/rastadeferqueue.c:192-211 | Its time of reception, 0 otherwise. |
| DeferQueue.Queue.SmallestSeqnr | src/rasta/c/rastadeferqueue.c:149-170 | The first of the slots with the smallest number, live or not; no slot has a smaller one. |
| DeferQueue.Queue.Sort | src/rasta/c/rastadeferqueue.c:37-39 | The live elements become what the library sort makes of them, the slots behind stay. |
| DeferQueue.WithoutFrontLive | src/rasta/c/rastadeferqueue.c:97-126 | What a removal leaves live is what was live without the first element, each as often as before. |
| DeferQueue.QueuedLive | src/rasta/c/rastadeferqueue.c:69-95 | What an addition leaves live is what was live and the new element. |
| DeferQueue.AsWrittenIff | src/rasta/c/rastadeferqueue.c:12-24 | The search meets the description in its header if and only if the number is that of the first live element or of none, and on an empty queue no leftover with the number stands in the first slot. |
| Crc.Options.Calculate | src/rasta/c/rastacrc.c:144-173 | For every byte string and every width 16 or 32, polynomial, initial value, reflection and final xor, the table-driven result is the checksum of bit-serial polynomial division; the table is generated on first use. |
| Crc.Options.GenerateTable | src/rasta/c/rastacrc.c:117-143 | Each of the 256 entries is the result of eight bit-serial steps on its index. |
| Crc.Options.LookupAllBackward | src/rasta/c/rastacrc.c:151-164 | For reflected options the right-shifting register is the mirror image of the left-shifting one after every prefix. |
| Crc.Options.LookupAllForward | src/rasta/c/rastacrc.c:155-159 | The unmasked left-shifting register agrees with bit-serial division on its low bits. |
| CrcMirror.Reflect | src/rasta/c/rastacrc.c:10-21 | Exactly the lower n bits are reversed, all others cleared, for n of 8, 16 and 32. |
| CrcErrors.RemainderIsTheRemainder | src/rasta/c/rastacrc.c:144-173 | Message times x^w plus initial value equals quotient times divisor plus the computed remainder, and no other quotient and remainder of that size fit. |
| CrcErrors.BurstIsFound | src/rasta/c/rastacrc.c:32-114 | With options B to E, two messages whose bits differ only within width consecutive bits have equal checksums only if they are equal. |
| CrcErrors.DamagedBytesAreFound | src/rasta/c/rastacrc.c:32-114 | Messages that differ only inside width/8 consecutive bytes get different checksums, for any prefix and suffix. |
| CrcErrors.OddErrorsIff | src/rasta/c/rastacrc.c:32-114 | Every odd number of wrong bits leaves a remainder if and only if the option is not B. |
| CrcErrors.OddDamageIsFound | src/rasta/c/rastacrc.c:53-114 | Options C, D and E tell apart any two messages that differ in an odd number of bits. |
| CrcOptions.LeadingZeroIff | src/rasta/c/rastacrc.c:53-93 | Of the offered options exactly C sees a zero byte put before a message, for every message. |
| CrcOptions.OwnChecksum | src/rasta/c/rastacrc.c:53-114 | A message followed by its own checksum, high byte first with B and low byte first with D and E, has checksum zero; with C always the same value, 0x48674BC7, whatever the message. The checksum of the empty message is zero with all four. |
| CrcOptions.CheckValues | src/rasta/c/rastacrc.c:32-114 | The checksums of the nine bytes "123456789": 0x0E7C650A, 0xE3069283, 0x2189 and 0xBB3D. |
| CrcBits.DivisionIsRemainder | src/rasta/c/rastacrc.c:117-143 | The shift register computes division with remainder over binary polynomials. |
| CrcBits.RemainderIsUnique | src/rasta/c/rastacrc.c:117-143 | Quotient and remainder of that division are unique. |
| CrcBits.BurstLeavesRemainder | src/rasta/c/rastacrc.c:117-143 | A difference within w consecutive bits leaves no remainder only if it is zero, for any divisor with constant term 1. |
| CrcBits.FindsOddErrorsIff | src/rasta/c/rastacrc.c:117-143 | For any divisor: all odd differences leave a remainder if and only if it has an even number of terms. |
| CrcWords.TableStep | src/rasta/c/rastacrc.c:155-159 | One table lookup equals eight bit steps. |
| CrcWords.EnterBits | src/rasta/c/rastacrc.c:129-133 | One step of the machine word is one step of the division of its bits. |
| CrcMirror.MirrorBits | src/rasta/c/rastacrc.c:10-21 | The mirror of a word has its bits in reverse order. |
| Crc.StepForward | src/rasta/c/rastacrc.c:155-159 | One turn of the left-shifting loop, unmasked, is one byte of the division. |
| Crc.StepBackward | src/rasta/c/rastacrc.c:161-163 | One turn of the right-shifting loop is the mirror image of one byte of the division. |
| Crc.RegisterIsRemainder | src/rasta/c/rastacrc.c:144-173 | The register after a message is the remainder of its bits. |
| PdiSafety.ConfirmedMeansReported | src/cloud_ixl/c/main.c:502-622 | Under every interleaving: a result CONFIRMED is read only if a report byte-equal to the command's 18-byte payload was taken after that command began; a route is freed only right after such a confirmation of PARADA. |
| PdiSafety.ExpectedStays | src/cloud_ixl/c/main.c:1004-1048 | While a report is in comparison no step of any thread changes the expected payload. |
| PdiSafety.EstablishedInOrder | src/cloud_ixl/c/main.c:429-448 | A run that reaches ESTABLISHED, the wait or a result contains, in this order, a handshake with the OC id, a version response with both versions 0x05 and result equal, a status begin and a status finish. |
| PdiSafety.OneSession | src/cloud_ixl/c/main.c:717-746 | At every point of a run the events of its establishment follow the last handshake with no failure or disconnection since, if and only if nothing writes the state between the version handler's check and its write. |
| PdiSafety.FailureInGapIsLost | src/cloud_ixl/c/main.c:717-746 | A timeout inside that gap is overwritten and the run reaches ESTABLISHED. |
| PdiSafety.FailedIsLeftIff | src/cloud_ixl/c/main.c:717-746 | FAILED is left exactly by a handshake, by the connection going down or starting, or by a version handler already past its check. |
| PdiSafety.ResultsOnlyFromWait | src/cloud_ixl/c/main.c:263-278 | Results are entered only from WAIT_CONFIRMATION, that only from ESTABLISHED, and ESTABLISHED only from the initial status or a result. |
| PdiSafety.FreedOnlyOnRecord | src/cloud_ixl/c/main.c:1050-1060 | A route stops blocking only in the step that reads CONFIRMED for its release command. |
| PdiSafety.RoutesStaySafe | src/cloud_ixl/c/main.c:991-1060 | In the whole command loop no two blocking routes share a section. |
| PdiSafety.PlacesStep | src/cloud_ixl/c/main.c:370-427 | Who may be where: a waiting state has a commanding main thread, a result has no comparison under way, a comparison has a main thread that is commanding or leaving. |
| PdiSafety.ComparisonStep | src/cloud_ixl/c/main.c:598-608 | The byte-by-byte comparison always speaks about the payload now expected. |
| PdiSafety.CopyStep | src/cloud_ixl/c/main.c:1004-1008 | The byte-by-byte copy always holds a prefix of the ordered aspect's payload, PARADA for a release. |
| PdiMachine.PayloadsDiffer | src/cloud_ixl/c/cloud_ixl_scils_adapter.c:37-103 | Different aspects have different payloads. |
| PdiCommands.PayloadIff | src/cloud_ixl/c/cloud_ixl_scils_adapter.c:37-103 | Which bytes each aspect has: an 18-byte payload is that of an aspect if and only if its bytes 0, 8 and 9 are the ones listed for that aspect and no other, and the rest are the fixed ones. |
| PdiCommands.CommandsAnswerOrders | src/cloud_ixl/c/main.c:981-1022 | In every run, whatever the other threads do, the bytes of each command begun answer the last order taken: for a route request the proceed signal exactly if the request was grantable in the plant at that moment and the stop signal otherwise, for a release the stop signal, for an aspect its own bytes; each command comes from one order. |
| PdiCommands.FreedBehindStop | src/cloud_ixl/c/main.c:1047-1060 | Before any route is freed the command last begun carried the stop signal, byte 0 being 2 and byte 8 being 1, and a report with the same bytes was taken since. |
| PdiCommands.FreedForRelease | src/cloud_ixl/c/main.c:1047-1060 | Every route freed is that of the release order taken last. |
| PdiCommands.RouteChangesIff | src/cloud_ixl/c/cloud_ixl_logic.c:102-134 | In the command loop a route changes exactly when a grantable request for it is taken, which reserves it, or when CONFIRMED is read for its release, which frees it. |
| PdiCommands.CommandCompletes | src/cloud_ixl/c/main.c:981-1075 | From ESTABLISHED, for any order, plant and report: a command that nothing disturbs begins with the bytes that answer the order, is read as CONFIRMED exactly if the report has the same bytes, frees a route exactly if that was a release, and leaves the machine ready for the next order. |
| PdiSafety.EnteredIff | src/cloud_ixl/c/main.c:257-813 | For each of the eleven states the steps that enter it, exactly, in every reachable situation; all that enters FAILED included. |
| PdiMonitor.Monitor.BeginSignalConfirmation | src/cloud_ixl/c/main.c:263-278 | Starts a command exactly in ESTABLISHED. |
| PdiMonitor.Monitor.RequirePdiState | src/cloud_ixl/c/main.c:287-299 | Any other state than the expected one becomes FAILED. |
| PdiMonitor.Monitor.TransitionPdiState | src/cloud_ixl/c/main.c:301-313 | Moves on from the expected state, to FAILED from any other. |
| PdiMonitor.Monitor.CompleteSignalCommand | src/cloud_ixl/c/main.c:370-382 | A result is entered only from the wait, anything else fails. |
| PdiMonitor.Monitor.OnConnectionChange | src/cloud_ixl/c/main.c:624-678 | The state after each connection change. |
| PdiMonitor.Monitor.OnBrightnessStatus | src/cloud_ixl/c/main.c:777-799 | A brightness status is allowed from the initial status on, otherwise the machine fails. |
| PdiMonitor.Monitor.TakeResult | src/cloud_ixl/c/main.c:384-427 | What the caller gets is what the machine's main thread records as read at the end of its wait, for every state of the other threads, and the state left is the machine's: a result of the command is never there to be read twice. |
| Interlocking.AlwaysSafe | src/cloud_ixl/c/cloud_ixl_logic.c:8-134 | For any route table and any run of requests and releases, with sections and points changing arbitrarily in between: no two distinct blocking routes share a section. |
| Interlocking.FreeIffGrantable | src/cloud_ixl/c/cloud_ixl_logic.c:56-100 | The state is FREE if and only if the route is known, does not block, its sections are free, no blocking route shares one and its points match. |
| Interlocking.StateOfIff | src/cloud_ixl/c/cloud_ixl_logic.c:56-100 | For each route state when it is reported, exactly: the route's own state if it blocks, then an occupied section, then a blocking route that shares one, then a point in the wrong position. |
| Interlocking.UnknownIff | src/cloud_ixl/c/cloud_ixl_logic.c:56-69 | INVALID is reported exactly for an id that is not in the table. |
| Interlocking.State.RequestRouteDecision | src/cloud_ixl/c/cloud_ixl_logic.c:102-111 | GO is returned exactly for a grantable route, which becomes RESERVED; nothing else changes. |
| Interlocking.State.ReleaseRoute | src/cloud_ixl/c/cloud_ixl_logic.c:113-134 | A known route that is not FREE becomes FREE, otherwise nothing changes. |
| Interlocking.State.GetRouteState | src/cloud_ixl/c/cloud_ixl_logic.c:56-100 | The searches compute the declared state in the declared order of precedence. |
| Interlocking.State.ConflictingRoute | src/cloud_ixl/c/cloud_ixl_logic.c:24-54 | True exactly when another blocking route shares a section. |
| Interlocking.State.RoutesShareSection | src/cloud_ixl/c/cloud_ixl_logic.c:12-22 | True exactly when the two routes have a section in common. |
| Interlocking.RequestKeepsSafe | src/cloud_ixl/c/cloud_ixl_logic.c:102-111 | A request keeps the safety invariant. |
| Interlocking.ReleaseKeepsSafe | src/cloud_ixl/c/cloud_ixl_logic.c:113-134 | A release keeps it. |
| HashMap.Map.Put | src/sci/c/hashmap.c:261-284 | With an absent key the map gains exactly that entry and stays sound; with a present key soundness is always lost; when memory runs out the contents are a part of what they were. |
| HashMap.Map.Rehash | src/sci/c/hashmap.c:221-256 | The contents survive, nested rehashes included, and the table at least doubles; only running out of memory loses entries, and none if the first allocation fails. |
| HashMap.Map.Get | src/sci/c/hashmap.c:289-318 | The entry of the finite map, or missing. |
| HashMap.Map.Remove | src/sci/c/hashmap.c:351-383 | Exactly the key's entry goes. |
| HashMap.Map.Length | src/sci/c/hashmap.c:392-397 | The number of entries of the finite map. |
| HashMap.Map.Hash | src/sci/c/hashmap.c:191-216 | A free slot or the key's own within eight probes of its home. |
| HashMap.Map.Register | src/sci/c/scils.c:202-230 | The guarded insert agrees with insert-if-absent on the finite map. |
| HashMap.Perform | src/sci/c/hashmap.c:261-383 | Any list of lookups, removals and guarded inserts answers and acts as on a finite map; only running out of memory ends it early, and then the contents are a part of the map reached. |
| HashMap.StoreSoundIff | src/sci/c/hashmap.c:277-281 | Storing under a key keeps places, uniqueness and count right if and only if the key was absent. |
| HashMap.UsedSlotsCount | src/sci/c/hashmap.c:392-397 | The number of used slots is the number of keys. |
| FullStack.TelegramArrives | src/rasta/c/rastamodule.c:78-419 | Any telegram with a known protocol and at most 85 payload bytes, packed, wrapped as SR packet and frame with any hash length and CRC width, decodes to the same telegram and header fields with both checks right, for any hash and CRC function. |
| FullStack.MessagesArrive | src/rasta/c/rastamodule.c:78-419 | The same for any list of messages within the 16-bit lengths. |
| FullStack.OnTheWire | src/rasta/c/rastamodule.c:78-346 | Where every field of frame and packet lies in the bytes sent, as numbers in the order of the host, with the two packet types, the messages, and the safety code over all of the packet before it. |
| SrPackets.DecodeEncode | src/rasta/c/rastamodule.c:137-286 | Decoding undoes encoding and finds the checksum right. |
| SrPackets.FieldsOnWire | src/rasta/c/rastamodule.c:78-166 | Where the fields of a packet lie in its bytes, and which bytes the safety code covers. |
| SrPackets.EncodeDecodeIff | src/rasta/c/rastamodule.c:137-286 | Encoding what was decoded gives the bytes back if and only if their checksum was right. |
| SrPackets.DirectPathKeepsBytes | src/rasta/c/rastamodule.c:168-190 | Encoding with the carried checksum always gives the bytes back. |
| SrPackets.DeferredPathCertifies | src/rasta/c/rastaredundancy_new.c:82-88 | A packet that waited in the defer queue leaves with a right checksum even if it came with a wrong one. |
| SrPackets.ReadsInsideIff | src/rasta/c/rastamodule.c:192-286 | Decoding reads inside the bytes if and only if the length field covers header and checksum and does not exceed the bytes there are. |
| SrPackets.Module.ModuleToBytes | src/rasta/c/rastamodule.c:137-166 | The bytes of the packet; nothing is written when the length is too small or an error was left pending. |
| SrPackets.Module.ModuleToBytesNoChecksum | src/rasta/c/rastamodule.c:168-190 | The same with the carried checksum. |
| SrPackets.Module.BytesToPacket | src/rasta/c/rastamodule.c:192-286 | The packet the bytes hold; too few bytes give length 0, a wrong checksum and a pending error. |
| SrPackets.Module.PackFields | src/rasta/c/rastamodule.c:78-134 | Each of the 28 header bytes is the right byte of its field, the rest of the buffer untouched. |
| RedundancyPackets.DecodeEncode | src/rasta/c/rastamodule.c:289-419 | Decoding a frame undoes encoding with both checks right. |
| RedundancyPackets.FieldsOnWire | src/rasta/c/rastamodule.c:289-346 | Where the fields of a frame lie in its bytes, and which bytes its check covers. |
| RedundancyPackets.ToBytes | src/rasta/c/rastamodule.c:289-346 | The bytes of the frame, its CRC over all before it. |
| RedundancyPackets.FromBytes | src/rasta/c/rastamodule.c:348-419 | The frame the bytes hold, with the outcome of both checks. |
| FrameDamage.DamageIsFoundIff | src/rasta/c/rastamodule.c:400-418 | A frame changed within width/8 consecutive bytes is received with a wrong check if and only if the host is not one with the high byte first using a 16-bit CRC. |
| FrameDamage.CheckBytesTell | src/rasta/c/rastamodule.c:333-340 | The check bytes written tell all CRCs apart, except on such a host, where they are always zero. |
| MessageData.UnpackPack | src/rasta/c/rastafactory.c:236-317 | Extraction undoes packing for every list of byte strings that fit, empty list and empty strings included. |
| MessageData.PackUnpack | src/rasta/c/rastafactory.c:236-317 | Packing the extraction gives any well-formed payload back. |
| MessageData.PackJoins | src/rasta/c/rastafactory.c:236-272 | The payload of two lists of messages is that of the first followed by that of the second. |
| MessageData.PackOne | src/rasta/c/rastafactory.c:236-272 | The payload of one message is its length, two bytes in the order of the host, and its bytes. |
| MessageData.ReadsInsideIff | src/rasta/c/rastafactory.c:277-317 | Extraction reads inside the payload if and only if the payload is a list of complete messages. |
| MessageData.Create | src/rasta/c/rastafactory.c:236-272 | The two loops build the packed payload. |
| MessageData.Count | src/rasta/c/rastafactory.c:277-290 | The counting pass finds as many messages as the copying pass extracts. |
| MessageData.Extract | src/rasta/c/rastafactory.c:277-317 | The copying pass extracts them all and ends on the same boundary. |
| Sci.DecodeEncodeIff | src/sci/c/sci.c:34-93 | A telegram comes back if and only if its protocol is known and its payload has at most 85 bytes; otherwise it is refused. |
| Sci.EncodeDecode | src/sci/c/sci.c:34-93 | Every accepted telegram is the encoding of what was read. |
| Sci.FieldsOnWire | src/sci/c/sci.c:58-93 | Exactly the byte strings of 43 to 128 bytes that start with 0x40 or 0x30 are accepted; where the fields are read. |
| Sci.SameFieldIff | src/sci/c/sci.c:6-18 | Two names share a field if and only if they differ only in trailing underscores. |
| Sci.SetName | src/sci/c/sci.c:6-18 | The field is the name followed by padding. |
| Sci.EncodeTelegram | src/sci/c/sci.c:34-56 | Protocol, type, names and payload at their offsets. |
| Sci.DecodeTelegram | src/sci/c/sci.c:58-93 | Length and protocol checks, then the fields. |
| ByteOrder.LongBack | src/rasta/c/rastautil.c:51-75 | Writing and reading a 32-bit number in host order gives it back. |
| ByteOrder.LongForth | src/rasta/c/rastautil.c:51-75 | Reading and writing four bytes gives them back. |
| ByteOrder.MixedHostsAgreeIff | src/rasta/c/rastamodule.c:21-46 | Hosts of different byte order agree on a 16-bit number if and only if its bytes are equal. |
| ByteOrder.HostBytes | src/rasta/c/rastamodule.c:21-46 | A 16-bit number is written with its low byte first on a host that is not big, and with its high byte first on one that is; a number below 256 leaves the other byte zero. |
| ByteOrder.HostLong | src/rasta/c/rastautil.c:51-75 | Likewise for the four bytes of a 32-bit number. |
| Md4.DigestOfPieces | src/rasta/c/rastamd4.c:147-218 | For every way of cutting a message into updates, any initial vector and any block function, the digest is the fold over the message padded as in sections 3.1 and 3.2 of RFC 1320. |
| Md4.Context.Update | src/rasta/c/rastamd4.c:147-179 | The context stands for the message so far, extended by the piece. |
| Md4.Context.Final | src/rasta/c/rastamd4.c:187-218 | The digest of the message so far. |
| Md4.CountUp | src/rasta/c/rastamd4.c:152-155 | lo of 29 bits and hi of 32 bits represent the byte count modulo 2^61 after any update. |
| Md4.LengthEmitted | src/rasta/c/rastamd4.c:206-208 | The 64-bit length emitted is eight times the byte count modulo 2^64. |
| Md4.PaddingFolds | src/rasta/c/rastamd4.c:191-210 | The padding ends one block, or one and the next, whichever the length calls for. |
| Md4.PaddingIff | src/rasta/c/rastamd4.c:187-210 | The padding is exactly what RFC 1320 asks for: 0x80, zeros, and the number of bits modulo 2^64 in eight bytes, low byte first, up to the end of a block and at most one block more than needed. |
| Md4.DigestIsReplay | src/rasta/c/rastamd4.c:147-218 | The blocks digested, in order, are those of the message and its padding. |
| Md4.Generate | src/rasta/c/rastamd4.c:250-283 | Zeros, the first half or all of the digest, by checksum type. |
| Blake2.DigestOfPieces | src/rasta/c/rastablake2.c:126-190 | For every split into updates, every key of 0 to 64 bytes and any compression function, the digest is that of section 3.3 of RFC 7693: the zero-padded key block first, the last block compressed only at the end, the counter at every block the bytes so far; these compressions and no others lead from the start state to it. |
| Blake2.Context.Update | src/rasta/c/rastablake2.c:154-169 | The context stands for the input so far, extended byte by byte; a full buffer waits. |
| Blake2.Context.Final | src/rasta/c/rastablake2.c:174-190 | The last block, full or not, is padded and compressed with the last flag. |
| Blake2.Context.Flush | src/rasta/c/rastablake2.c:160-166 | A full buffer is compressed, the counter being the bytes consumed modulo 2^128. |
| Blake2.CounterUp | src/rasta/c/rastablake2.c:161-163 | The two 64-bit words with carry by comparison count modulo 2^128. |
| Blake2.DigestIsReplay | src/rasta/c/rastablake2.c:126-190 | Which compressions a digest takes, for every key and data: one for each started block of the input and at least one, in order, the counter being the bytes consumed modulo 2^128, the last flag set at the last one and there alone, the last block filled up with zeros. |
| Blake2.CallsAreUnique | src/rasta/c/rastablake2.c:126-190 | No other list of compressions meets that description. |
| Blake2.Generate | src/rasta/c/rastablake2.c:5-26 | Writes the digest, by those compressions, exactly for accepted parameters; hash type 0 writes nothing. |
| Fifo.Perform | src/rasta/c/fifo.c:18-66 | Any sequence of pushes and pops agrees with a bounded sequence that ignores null elements and drops pushes when full, and gives out what that sequence gives out. |
| Fifo.Queue.Push | src/rasta/c/fifo.c:39-66 | Appends unless the element is null or the queue full; the chain stays acyclic with size nodes. |
| Fifo.Queue.Pop | src/rasta/c/fifo.c:18-37 | Takes the oldest element, null when there is none. |
| Fifo.EndsNullIff | src/rasta/c/fifo.c:18-66 | Head and tail are null exactly when the size is 0. |
| Fifo.FirstInFirstOut | src/rasta/c/fifo.c:18-66 | For any sequence of operations: what was there and what was taken in is what was given out and what is still there, in the same order. |

## Left out

- Sockets, thread creation, logging, memory release, JNI and configuration files: no property to prove.
- The SR handshake: runs start from the state it establishes and end with a close.
- The T_i and heartbeat clocks: expiry is a free choice of each heartbeat step. The time stamp check of an SR packet is a free yes or no.
- Packets that fail the id or SR checksum check: for the SR layer they are lost packets.
- Retransmission loop bound (src/rasta/c/rasta_new.c:568): the loop is modelled over the packets in the buffer, not the one element past them.
- Callbacks that fetch messages while a handler runs: fetching is a step of its own.
- SrRefinement.EndToEnd32: the check is exact for what is resent (SrCleanAnswers.CleanAnswerIff), not for what arrives: a run that fails it is still in order if the packets resent are then lost.
- SrTurn.EndToEndOneTurn: runs in which a side uses up its numbers are covered by SrRefinement.EndToEnd32, and fail as SrAliasing.HandedUpTwice32 shows.
- SrOverRedundancy.EndToEndOverChannels: the handshake frames are those each channel has already taken and read; a channel removed by a close goes on existing unread.
- Diagnostics counters, the diagnostics packet buffer and t_drift of the redundancy layer.
- Redundancy.HandedUpInOrder: contents are opaque; that deferred packets are encoded anew is stated in SrPackets only.
- DeferQueue.Queue.Sort: the library sort is any function that permutes and orders by time; the truncation of the time difference to int is not modelled.
- DeferQueue.Queue.SmallestSeqnr: every slot must have been used; the source reads through a null pointer otherwise.
- DeferQueue.Queue.Remove: a leftover with the number on an empty queue, where the source's count wraps below 0, is excluded; it occurs in no run (RedundancyOrder.FoundIsLive).
- RedundancyChannel.Channel.DeferTmo: likewise a slot never used; in the runs such a timeout is no step.
- Redundancy.HandedUpInOrder, NoGaps, OneHealthyChannelSuffices, DeliverSettles, ReceiveSettles, TimeoutSettles and Layers.LinkOnlyLoses: of the described search; RedundancyOrder and Pipes state what holds of the written one.
- RedundancyOrder.HealthyChannelSufficesRaw: a timeout that fails the check sets seq_rx back, and the claim with it.
- SrOverRedundancy.EndToEndOverChannels: a timeout that fails the check can hand a frame up twice; the SR layer's own duplicate check is not used to make up for it.
- The multiplexer threads that work on copies of a channel (src/rasta/c/rasta_red_multiplexer.c:366, :463): their calls are steps on the channel itself.
- CRC option A: width 0 means no checksum.
- Round functions of MD4 and BLAKE2b: any function of state and block. SipHash: its tail does not follow the reference algorithm.
- HashMap.Map.Put: the hash function is any function; an allocation succeeds exactly up to a size limit; int overflow of the table size is not modelled.
- SrPackets.Module.BytesToPacket: a length field that exceeds the bytes present makes the source read past them (SrPackets.ReadsInsideIff); the model requires that it does not.
- SrPackets.Module.ModuleToBytesNoChecksum: as the next line.
- SrPackets.Module.ModuleToBytes: a packet whose data or checksum length disagrees with its length field makes the source copy past a buffer; the model requires that they agree.
- RedundancyPackets.ToBytes: a frame whose 16-bit length has wrapped, likewise.
- RedundancyPackets.FromBytes: a frame shorter than header and check, or an inner length field that exceeds the bytes, likewise.
- MessageData.Create: a message of 65536 bytes or more, whose length field the source truncates.
- MessageData.Count: requires a list of complete messages, outside which the source reads past the payload (MessageData.ReadsInsideIff).
- MessageData.Extract: likewise.
- Sci.SetName: a name of more than 20 bytes, which the source copies past the field.
- Sci.DecodeTelegram: bytes of the payload field past the used ones.
- Interlocking.State.GetRouteState: null state pointers and messages to the operator; route ids index the state array, as in the table given.
- PdiMachine: the luminosity command and reading commands from the operator are only their outcome; an unsupported aspect ends the run like quitting.
- fifo_destroy and the lifetime of queued packets: contents are values.
- The SCI-P protocol, field checks of the LS interface and the sending functions of src/sci/c/scils.c: easy members.
