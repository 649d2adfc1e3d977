# The AoE driver: transport and block transfer, modelled and verified

The driver speaks ATA over Ethernet. Its two cores are modelled here and proved about.

**Transport** (AoE/AoEService.cpp, AoE/EInterfaces.cpp, AoE/EInterface.cpp). Every packet sits in
a sent queue and, while it waits to go out, also in a to-send queue. Timers output, resend and
drop packets. A count of outstanding packets, a congestion window with an integer fraction and a
round-trip estimator decide what may go out on each Ethernet port.

**Block transfer** (AoE/AoEController.cpp, AoE/aoe.h). One large read or write is cut into frames
with consecutive tags and rising addresses. Frames may be repeated, replies come in any order and
in any chain of buffers, and the buffer is rebuilt from tag arithmetic. What all of it amounts to
is "copy N sectors".

## How the project is laid out

| file | module | content |
|---|---|---|
| Common.dfy | Common | constants, time conversion, sequence lemmas |
| Interfaces.dfy | Interfaces | a port as a value, the operations on it, the congestion-window law |
| EInterfaces.dfy | EthernetPorts | the classes `EInterface` and `EInterfaces`, proved to be those operations |
| Rto.dfy | RtoEstimator | the round-trip estimator with its 32-bit arithmetic |
| Transport.dfy | Transport | the transport as a state machine: `Net`, `Event`, `Step`, `Run` |
| AoEService.dfy | Service | the class `AoEService`; every gate action and timer is one `Step` |
| Queues.dfy | Queues | the two queues agree in every reachable state |
| Ledger.dfy | Ledger | the outstanding count against the packets really in flight |
| Windows.dfy | Windows | what may change counts and windows |
| Timers.dfy | Timers | what one tick does to the queues as a whole |
| Order.dfy | Order | first transmissions keep the order of acceptance |
| Dispatch.dfy | Dispatch | at-most-once dispatch; every response is handed over or counted |
| Conservation.dfy | Conservation | no packet is lost |
| Lifetimes.dfy | Lifetimes | what the retransmit tick does with one packet, and why packets leave |
| RoundTrips.dfy | RoundTrips | outputs and resends of each packet, and the round trips that the estimator is given |
| PortHistory.dfy | PortHistory | the last output, the shelf limits and the window of a port over a run |
| Retry.dfy | Retry | back-off and the bound on resends |
| Scenarios.dfy | Scenarios | reachable states, and runs given as examples |
| Reconnect.dfy | Reconnect | the port that stays shut after a reconnect |
| FrameSize.dfy | FrameSize | the MTU kept over a run: every frame fits every port that is up, and the room when a reply comes in |
| Tags.dfy | TagGenerator | the tag generator and the freshness of tags |
| Targets.dfy | Targets | choice of the interface, table of targets |
| Wire.dfy | Wire | header words and what a target reads from them, LBA registers, frame size |
| Blocks.dfy | Blocks | cutting a transfer, the target's disk, block write = plain write |
| Interleaved.dfy | Interleaved | a block write among other frames |
| Replies.dfy | Replies | reassembly of a read, block read = plain read, replies that are cut off |
| WriteReport.dfy | WriteReport | what a write and a read report |
| Controller.dfy | Controller | the class `AoEController`: issuing and replies |
| EndToEnd.dfy | EndToEnd | blocks over runs of the transport, own and foreign replies, write then read |
| ForeignReply.dfy | ForeignReply | a run in which a foreign reply is counted for a block |
| ShrunkRoom.dfy | ShrunkRoom | a run in which a port that comes up makes the driver cut off a reply |

A class method changes its fields step by step as the C++ does. Its `ensures` equates the new
state with a function of the old one. The functions are what the lemmas are about: those that
start from `Run` hold over every sequence of events with a clock that does not run backwards and
fresh tags, and `TagGenerator.GeneratedIsLegal` proves that the generator provides fresh tags.

The invariants over runs come from one lemma for a step: `Queues.StepKeepsQueues` first, which
the others use. The history in `Net.h` (packets accepted, frames on the wire, tags resent, packets
gone and responses dispatched, the frames and departures with their times) is what the environment
has seen. No operation reads it, except the time of the step.

## What the code does not do

- **Foreign replies.** `ata_response` takes every ATA reply from its shelf and slot for one to the
  current command and never compares the tag. The reply to an identify, which goes to every target
  each minute, or one to a frame of a command that was cancelled when another port went down, is
  counted for the block and its bytes are counted, too. So a read may complete with a sector
  never stored, and a write with a sector not on the disk. `ForeignReply.IdentifyIsAnsweredFirst` is a run,
  `ForeignReply.ReadMissesSector` and `ForeignReply.WriteMissesSector` are what comes of it, and
  `EndToEnd.AllAnsweredIffNoForeign`, `EndToEnd.OnDiskIffNoForeign` and `EndToEnd.ReadIsReadIff` are
  the exact conditions. The data of a foreign reply goes past the buffer when its tag is near
  (`EndToEnd.LaterTagMisses`, `EndToEnd.EarlierTagMisses`), but may wrap into it (`EndToEnd.FarTagHits`).
  When it brings enough bytes, a read completes before all its replies are in
  (`ForeignReply.ForeignCompletesEarly`; exact conditions `Replies.InterruptIff` and
  `EndToEnd.CompletedIffNoForeign`).
- **Shrunk room.** `completeDataRead` takes the limit for a frame anew at every reply, and
  `set_mtu_size` lowers it when a port with a smaller MTU comes up, without a word to the command
  that waits. Its replies are then cut off, and the read completes without an error and without
  its bytes (`ShrunkRoom.SmallPortComesUp`, a run; `ShrunkRoom.ReplyIsCutOff`, what comes of it). Exact
  conditions: `EndToEnd.CompleteIffRoomy` for a block, `FrameSize.MtuKeptIff` for an event;
  `EndToEnd.NoSmallPortIsRoomy` is what can be seen from the outside.
- **Reconnect.** `cg_disable_interface` clears the count through a loop variable that is NULL after
  the loop, and `interface_reconnected` does not clear it. A port that goes down with a full window for
  a shelf (the least of congestion, shelf and user window) comes back shut for it, with nothing
  in flight: `Reconnect.ReconnectSticksIff` is the exact condition, `Reconnect.StuckIsReachable` and
  `Reconnect.ShelfIsStuck` are runs, the second one with the congestion window open. No fresh packet
  for the shelf goes out then, however many are queued (`Reconnect.RunStaysStuck`).
  `Reconnect.StuckSurvivesIff` says for every event exactly when the port stays shut. Ways out are a
  larger shelf or user window (`Reconnect.SettingsReleaseIff`), the idle reset
  (`Reconnect.IdleReleasesIff`), an enable, replies that grow the window or answer what never went
  out, and a search that is dropped before it went out (`Reconnect.SearchReleasesIff`).
- **Count.** A search that is dropped before it went out, a reply to a packet that never went out,
  an idle reset and an enable make the count too low. `Ledger.ExactIffClean` gives the exact
  condition for every event, `Scenarios.CountBelowZero` a run that ends with a count of -1.
- **Idle room.** `all_full` compares every port with the limit of one packet, so a transmit tick may
  send nothing although another port has room (`Scenarios.RoomUnused`, a run; exact condition
  `Timers.FirstWithRoomGoesOutIff`). With one limit for all queued packets that cannot be
  (`Timers.OneLimitWastesNoRoom`).
- **Early answers.** The time of output is 0 until a packet goes out. A reply that comes in before that
  is not told apart from others: its round trip is then the whole uptime (Shared/AoEcommon.c:17-28),
  and goes into the estimator. `RoundTrips.EstimatorHasTheRoundTrips` counts it so.
- **Write errors.** Only the first non-zero status of the earlier replies is kept, also when it is a
  success: a target that answers 0x40 on success hides a later failure
  (`WriteReport.ReadyStatusHidesFailure`, exact condition `WriteReport.ReportedIffNotHidden`).
- **Read errors.** A read keeps no status of its earlier replies, so a failure before the last reply
  goes unreported. A mark that a cancelled write has left makes a good read end with an error
  (`WriteReport.EarlyFailureIsHidden`, an input; `WriteReport.ReadOutcome` and
  `WriteReport.GoodReadAfterCancelledWrite`, exact conditions). What a silent write or read has done:
  `EndToEnd.SilentWriteIff`, `EndToEnd.SilentReadIff`.
- **24-bit commands.** The number of replies is computed from the sector-number register:
  `Blocks.PlanAgrees` says when it is right, `Blocks.SectorNumberMiscounts` shows it is not.
- **Tag wrap.** A reply is put at (tag - first tag) * chunk. `Blocks.PositionIffNoWrap`: that is right
  exactly when the tags did not start over within the block.
- **Error code.** The header writer keeps four bits of an error code of which the reader takes eight
  (`Wire.VerFlagErrRoundTrip`).
- A comment in `send_packet_from_queue` (AoE/AoEService.cpp:1408-1410) says that only an answered
  resend can be in the to-send queue alone. A search dropped before it went out can, too
  (`Scenarios.CountBelowZero`), and so can a packet answered before it went out
  (`Scenarios.EarlyReplyLeavesOrphan`).

## Model

| member | source | states |
|---|---|---|
| Queues.ReachableQueues | AoE/AoEService.cpp:632-1737 | over every legal run: tags are distinct in each queue, every queued packet is on a port in use, times and flags agree, and the queues agree |
| Queues.StepKeepsQueues | AoE/AoEService.h:38-51 | every event keeps that invariant |
| Queues.ExactlyOneWaiting | AoE/AoEService.cpp:1098-1125 | a packet that waits has exactly one to-send entry, immediate just when it has been out before; any other packet has none |
| Queues.RejectedSendIsNoOp | AoE/AoEService.cpp:1634-1656 | a packet for a port not in use changes nothing |
| Ledger.StepAccounting | AoE/AoEService.cpp:696-711 | for every event, by how much the count of a port falls behind the packets in flight there |
| Ledger.ExactIffClean | AoE/AoEService.cpp:1584-1597 | an exact count stays exact through an event if and only if a condition on the state before it holds |
| Ledger.CleanRunExact | AoE/AoEService.cpp:1346-1418 | over runs of such events the count is exactly the number of packets in flight, so never negative |
| Scenarios.CountBelowZero | AoE/AoEService.cpp:1590-1593 | a legal run ends with a count of -1, nothing in flight, and the search alone in the to-send queue |
| Scenarios.EarlyReplyLeavesOrphan | AoE/AoEService.cpp:1405-1416 | a legal run in which a packet answered before it went out stays alone in the to-send queue |
| Ledger.CoverIff | AoE/EInterfaces.cpp:469-480 | an event lets the count exceed the packets in flight if and only if it reconnects a port that went down with packets counted |
| Ledger.NoStuckWindow | AoE/AoEService.cpp:431-495 | over every legal run without a reconnect a positive count has a packet on the wire |
| Reconnect.ReconnectSticksIff | AoE/AoEService.cpp:484-485 | after disable and reconnect nothing is in flight, and the port is shut for a shelf if and only if the least of its three windows for the shelf was full before |
| Reconnect.RunStaysStuck | AoE/AoEService.cpp:1268-1320 | over any run of events that the shut window of a shelf survives, no fresh packet for the shelf goes out on the port |
| Reconnect.StuckSurvivesIff | AoE/AoEService.cpp:1209-1605 | for every event, settings included, exactly when the window of a shelf stays shut, in terms of the state before; and no event lets a fresh packet for it out |
| Reconnect.SearchReleasesIff | AoE/AoEService.cpp:1584-1597 | with no packet of the port out, a search dropped by a retransmit tick lets a packet for the shelf go if and only if its window was just used up |
| Reconnect.IdleReleasesIff | AoE/EInterfaces.cpp:281-312 | if shelf and user leave a window at all, an idle tick opens it again if and only if the idle time has passed |
| Reconnect.StuckIsReachable | AoE/EInterfaces.cpp:410-480 | a legal run reaches a port that is shut for a shelf |
| Reconnect.ShelfIsStuck | AoE/AoEService.cpp:1268-1302 | a legal run reaches one that is shut by the shelf's limit, with the congestion window open and nothing queued |
| Reconnect.SettingsReleaseIff | AoE/EInterface.cpp:34-40 | exactly when a new limit of the shelf, or a new user window, leaves it shut |
| Reconnect.StuckForAll | AoE/AoEService.cpp:1268-1302 | a debt of the congestion window or of the user's window shuts the port for every shelf |
| Windows.TransmitWithinWindow | AoE/AoEService.cpp:1237-1320 | a tick counts at most one more packet, a fresh one, within the least of congestion, shelf and user window |
| Windows.OnlyTransmitCounts | AoE/AoEService.cpp:1495-1599 | no other event counts a packet |
| Windows.RunWithinUserWindow | AoE/AoEService.cpp:1384-1388 | with a constant user window no count ever exceeds it, link changes included |
| Windows.RetransmitCollapsesOnce | AoE/AoEService.cpp:1550-1561 | a retransmit tick collapses the window of at most one port, that of the first packet it resends, and raises no count |
| Windows.CollapseIsRestart | AoE/EInterfaces.cpp:152-222 | the collapse: window 1, fraction 0, threshold half the window but at least 1, other ports untouched |
| Timers.RetransmitSweeps | AoE/AoEService.cpp:1495-1599 | the walk over the queue that it edits treats every entry by its verdict exactly once: it drops exactly the discarded ones, and requeues exactly the resent ones, in order |
| Timers.NothingOverdue | AoE/AoEService.cpp:1518-1597 | after the tick nothing in the sent queue is late: too old is gone, overdue waits to go out again, searches are dropped |
| Lifetimes.VerdictIff | AoE/AoEService.cpp:1518-1597 | a packet is dropped if and only if it is never resent, or out and first sent 60 s ago, and otherwise resent if and only if it is out and last sent longer ago than its time-out; in nanoseconds, with the rounding |
| Lifetimes.TickTreatsEach | AoE/AoEService.cpp:1495-1599 | a tick drops the packets that are never resent or too old, resends each late one once, with its time-out doubled up to 5 ms, and leaves every other packet alone |
| Lifetimes.GoneForAReason | AoE/AoEService.cpp:1518-1597 | every packet that an event takes out of the sent queue had an entry that fits the reason recorded: answered by that tag, 60 s old, never resent, or on the port that goes down |
| RoundTrips.OldWhenDropped | AoE/AoEService.cpp:1524-1530 | over every legal run a packet dropped as too old was first on the wire at least 60 s before |
| RoundTrips.OutputsMatchResends | AoE/AoEService.cpp:1346-1418 | over every legal run a queued packet has been on the wire once and once more for each resend, except that the last resend may still wait; its entry has the times of the first and the last output |
| RoundTrips.FramesWereAccepted | AoE/AoEService.cpp:1384-1400 | over every legal run whatever is put on the wire was accepted, for that port and shelf |
| Timers.ResendsGoOut | AoE/AoEService.cpp:1217-1226 | every packet that waits to be resent goes out in the next transmit tick, whatever the windows |
| Timers.FirstOpenIffNotStopped | AoE/AoEService.cpp:1285-1304 | the search finds the first entry with room if and only if in front of it there is no full entry whose limit no port in use is below |
| Timers.FirstWithRoomGoesOutIff | AoE/AoEService.cpp:1209-1322 | of the fresh packets the first one with room goes out, as the last frame of the tick, if and only if for each one in front of it some port in use has fewer packets counted than that packet's limit; otherwise no fresh packet does |
| Timers.OneLimitWastesNoRoom | AoE/EInterfaces.cpp:230-246 | with one limit for all queued packets a tick sends a fresh packet whenever the port of any of them has room |
| Timers.RoomIff | AoE/AoEService.cpp:1268-1302 | a packet has room just when its port counts fewer packets than the congestion window, than the shelf's limit (the least one for a broadcast) and than the user's window |
| Scenarios.RoomUnused | AoE/EInterfaces.cpp:230-246 | a legal run reaches a state in which the transmit tick changes nothing although a queued packet has room in its window |
| Scenarios.PassesFullPort | AoE/AoEService.cpp:1268-1320 | a legal run in which the tick passes over a packet for a full port and sends the next one, for a port with nothing out |
| Order.FirstTransmissionsInOrder | AoE/AoEService.cpp:1217-1322 | over every legal run, for each port and shelf, first transmissions form a subsequence of the packets in order of acceptance |
| Dispatch.AtMostOnce | AoE/AoEService.cpp:679-740 | over every legal run each unicast tag that is handed over was accepted, and is handed over once |
| Dispatch.StrangerIgnored | AoE/AoEService.cpp:836-840 | a response with an unknown unicast tag changes one counter |
| Dispatch.HandedOverIff | AoE/AoEService.cpp:745-840 | a response is handed over if and only if it reports no error, is an ATA or config response, and answers a queued packet or carries tag 0 or a broadcast tag; otherwise one counter goes up |
| Dispatch.EveryResponseAccounted | AoE/AoEService.cpp:632-844 | over every run each response that comes in is either handed over or counted as unexpected |
| Conservation.NothingLost | AoE/AoEService.cpp:632-1737 | over every legal run each accepted packet is in the sent queue once or has left it once (answered, too old, never resent, port down), and nothing else is queued or gone |
| Conservation.StepConserves | AoE/AoEService.cpp:461-482 | what each event takes out of the sent queue, and why; the bag of queued and gone tags changes only by what is accepted |
| Conservation.PurgeSentOrder | AoE/AoEService.cpp:461-482 | a purge keeps the sent queue in order |
| Conservation.PurgeToSendOrder | AoE/AoEService.cpp:1634-1656 | likewise the to-send queue |
| Retry.BoundedRetransmission | AoE/AoEService.cpp:1518-1574 | no packet is resent more than 12000 times, and after k resends its time-out is the first one times 2^k, up to the limit |
| Retry.TimeoutClosedForm | AoE/AoEService.cpp:1104-1105 | repeated doubling with the limit is min(2^k * first, limit) |
| RtoEstimator.EstimateInBounds | AoE/AoEService.cpp:1055-1085 | over every sequence of samples in [0, m] the estimates stay in [0, m], no 32-bit step overflows and the time-out stays between its floor and max(initial, 5m) |
| RoundTrips.EstimatorHasTheRoundTrips | AoE/AoEService.cpp:713-716 | over every legal run the estimator is what update_rto makes, from (10 ms, 0, 0), of the times from output to answer of the packets that were answered without ever having been resent, in the order of the answers |
| RoundTrips.FirstTimeout | AoE/AoEService.cpp:1675-1684 | over every legal run with round trips up to m the time-out of the next packet accepted is average + 4 deviations, at least 1 ms, rounded to microseconds; 10 ms as long as there was no round trip, 0 for a packet never resent |
| RtoEstimator.WrapIsTruncation | AoE/AoEService.cpp:1055-1073 | the 32-bit steps keep the one value in range that differs by a multiple of 2^32 |
| RtoEstimator.AverageStep | AoE/AoEService.cpp:1062-1063 | one sample moves the average strictly towards the band [r-7, r], never past it, and not at all inside |
| RtoEstimator.Converges | AoE/AoEService.cpp:1055-1073 | under a constant round-trip time r, after distance + m samples the average is in [r-7, r], the deviation at most 7 and the time-out in [r-7, r+28], and they stay |
| Interfaces.AckLaw | AoE/EInterfaces.cpp:172-198 | a reply keeps 0 <= fraction < window, adds 1 in slow start, and raises w(w-1)/2 + fraction by exactly 1 in congestion avoidance |
| Interfaces.AvoidanceLaw | AoE/AoEService.cpp:725-730 | k replies raise it by k, which determines window and fraction uniquely |
| Interfaces.SlowStartLaw | AoE/AoEService.cpp:727-728 | k replies below the threshold raise the window by k |
| Interfaces.PotentialInjective | AoE/EInterfaces.cpp:188-192 | the potential determines window and fraction |
| PortHistory.AnswerWidens | AoE/AoEService.cpp:696-730 | an answer counts one packet off the port of the packet answered, unless that was resent, and widens the window of that port by one step of the law; every other port stays as it is |
| PortHistory.OnlyAnswersWiden | AoE/EInterfaces.cpp:152-222 | no event but the answer to a packet of the port widens its window, and that one by at most 1 |
| PortHistory.PortStep | AoE/EInterfaces.cpp:281-480 | what every other event but a transmit tick does to each field of each port |
| PortHistory.IdleSinceLastOutput | AoE/EInterfaces.cpp:281-312 | after every legal run an idle tick resets a port in use if and only if a frame has gone out by it and the last one did so more than 5 s ago |
| PortHistory.LimitsOfRun | AoE/EInterface.cpp:34-40 | over every legal run the limit of a shelf is the last one the port was given for it while in use, and the limit of a broadcast the least of 128 and all limits it was given |
| EthernetPorts.EInterface.SetMaxOutstanding | AoE/EInterface.cpp:34-40 | sets one shelf's window and lowers the running minimum |
| EthernetPorts.EInterfaces.GetMaxOutstanding | AoE/EInterfaces.cpp:63-83 | the window of the shelf, the least one for a broadcast, 0 for an unknown port |
| EthernetPorts.EInterfaces.AllFull | AoE/EInterfaces.cpp:230-246 | whether every port in use has at least that many packets outstanding |
| EthernetPorts.EInterfaces.GrowCwnd | AoE/EInterfaces.cpp:172-198 | the search and update make the growth step, keep 0 <= fraction < window, and touch nothing else |
| EthernetPorts.EInterfaces.ResetIfIdle | AoE/EInterfaces.cpp:281-312 | exactly the idle ports in use start over |
| EthernetPorts.EInterfaces.RecalculateMtu | AoE/EInterfaces.cpp:375-399 | the MTU kept is the least of the ports in use, 0 if there is none |
| EthernetPorts.EInterfaces.EnableInterface | AoE/EInterfaces.cpp:326-369 | the port comes up reset; a bad number changes nothing |
| EthernetPorts.EInterfaces.InterfaceDisconnected | AoE/EInterfaces.cpp:410-427 | the port goes down with its count and windows kept |
| EthernetPorts.EInterfaces.InterfaceReconnected | AoE/EInterfaces.cpp:469-480 | the port comes up with its count and windows kept |
| EthernetPorts.LeastMtuIsMinimum | AoE/EInterfaces.cpp:382-391 | that value is the greatest bound all ports in use respect, and it is one of their MTUs |
| FrameSize.EveryFrameFits | AoE/EInterfaces.cpp:375-399 | over every legal run each frame of a block cut by the MTU kept fits every port in use |
| FrameSize.MtuKeptIff | AoE/AoEService.cpp:400-414 | an event leaves the MTU kept at least so large if and only if no port with a smaller one comes up |
| FrameSize.RunHears | AoE/AoEService.cpp:754-800 | the responses heard over a run, each with the MTU kept at the time, are those the transport hands over |
| Service.AoEService.UpdateRto | AoE/AoEService.cpp:1055-1073 | makes the estimator's step and changes nothing else |
| Service.AoEService.SendPacketOnInterface | AoE/AoEService.cpp:1625-1702 | is the transport's step for a send; -1 just when the port is not in use |
| Service.AoEService.SendPacketFromQueue | AoE/AoEService.cpp:1346-1418 | the loop over the sent queue makes the specified output step |
| Service.AoEService.NextToSend | AoE/AoEService.cpp:1229-1320 | the pass under flow control finds the first entry its window lets out, unless a full entry that fills all ports comes first |
| Service.AoEService.TransmitTimer | AoE/AoEService.cpp:1209-1322 | both passes together are the transport's transmit step |
| Service.AoEService.RetransmitTimer | AoE/AoEService.cpp:1474-1605 | the walk that drops, collapses and resends is the transport's retransmit step |
| Service.AoEService.ResendPacket | AoE/AoEService.cpp:1098-1125 | time-out doubled to its limit, marked, queued for immediate sending |
| Service.AoEService.CgAoeIncoming | AoE/AoEService.cpp:632-844 | is the transport's step for an incoming packet |
| Service.AoEService.CgDisableInterface | AoE/AoEService.cpp:431-495 | is the transport's step for a link that goes down: both queues purged, no count cleared |
| Service.AoEService.CgEnableInterface | AoE/AoEService.cpp:387-414 | is the transport's step for a port that is enabled, with the MTU kept the least of the ports in use; a bad number leaves it |
| Service.AoEService.InterfaceReconnected | AoE/AoEService.cpp:530-545 | is the transport's step for a link that comes back, and the MTU kept is the least of the ports in use |
| Service.AoEService.IdleTimer | AoE/AoEService.cpp:1451-1466 | is the transport's idle step |
| TagGenerator.NextIsSuccessor | AoE/AoEControllerInterface.cpp:194-205 | the k-th tag is 1 + k mod (MAX_TAG - 1) |
| TagGenerator.Generator.NextTag | AoE/AoEControllerInterface.cpp:194-205 | returns the tag of the next call |
| TagGenerator.TagShape | Shared/AoEcommon.h:53-58 | a tag is never 0 and carries no flag bit; a search tag differs from every unicast tag |
| TagGenerator.TagsDiffer | AoE/AoEControllerInterface.cpp:200-202 | calls less than a period apart give different tags |
| TagGenerator.GeneratedIsLegal | AoE/AoEControllerInterface.cpp:194-262 | a run with fewer tag allocations than the period gives every packet a fresh tag |
| Targets.TargetInfo.PickInterface | AoE/AoEControllerInterface.cpp:851-900 | the do-while ends on the first active interface cyclically after the last one used, within n turns; -1 for a target without interfaces |
| Targets.PickEndsIff | AoE/AoEControllerInterface.cpp:886-893 | the do-while has a place to stop if and only if some interface is active |
| Targets.FairSends | AoE/AoEControllerInterface.cpp:886-893 | with a fixed set of active interfaces, as many consecutive packets use each exactly once |
| Targets.AoEControllerInterface.GetNextTargetNumber | AoE/AoEControllerInterface.cpp:588-620 | terminates with the least positive unused number, at most one more than there are targets |
| Targets.AoEControllerInterface.RemoveTarget | AoE/AoEControllerInterface.cpp:629-674 | removes exactly the target of that number; false and no change if there is none |
| Targets.AoEControllerInterface.AoeConfigReceive | AoE/AoEControllerInterface.cpp:363-440 | target numbers and addresses stay distinct; a target is added, removed or left, as specified |
| Targets.AoEControllerInterface.SetTargetsCstring | AoE/AoEControllerInterface.cpp:721-775 | a new string registers the target, removes it or leaves it, and the table stays distinct |
| Targets.AoEControllerInterface.AoeAtaReceive | AoE/AoEControllerInterface.cpp:287-325 | an ATA reply goes to the controller of its shelf and slot, and to no other |
| Wire.VerFlagErrRoundTrip | AoE/aoe.h:83-105 | version and flags come back from the header; the error code does exactly if it is below 16 |
| Wire.TagRoundTrip | AoE/aoe.h:89-107 | every 32-bit tag comes back from the header |
| Controller.BuildDecodes | AoE/AoEController.cpp:662-695 | a target reads version 1, no flags, shelf, slot and the ATA command from the header, and the tag, address, count, command and direction that the registers hold, through the interleaved bytes |
| Controller.HeaderBuilt | AoE/AoEController.cpp:1722-1817 | the 22 bytes of AoE and ATA header, one by one |
| Wire.IncrementAdds | AoE/AoEController.cpp:2244-2288 | increment_address is addition modulo 2^48 |
| Wire.IncrementShortAdds | AoE/AoEController.cpp:2294-2310 | the 24-bit one is addition modulo 2^24 |
| Wire.FrameFits | Shared/AoEcommon.h:47 | the sector count is the largest whose frame fits, exactly if the MTU holds the headers; otherwise it has wrapped |
| Blocks.RequestsRoundsUp | AoE/AoEController.cpp:1951-1982 | the number of frames is n / s rounded up |
| Blocks.Tiling | AoE/AoEController.cpp:1960-1979 | the frames tile the sectors, non-empty, without gap or overlap |
| Blocks.PlanAgrees | AoE/AoEController.cpp:2020-2055 | replies expected and requests issued agree exactly if the register divided gives the whole frames; then both are n / s rounded up |
| Blocks.SectorNumberMiscounts | AoE/AoEController.cpp:2020-2055 | a 24-bit command for which they do not agree |
| Blocks.BlockWriteIsWrite | AoE/AoEController.cpp:1864-1983 | any delivery of the frames to the target they are addressed to, each at least once, leaves the caller's bytes at the address and the rest of the disk unchanged |
| Blocks.NotForMe | AoE/AoEController.cpp:689-691 | any other target's disk stays as it is |
| Blocks.PositionIffNoWrap | AoE/AoEController.cpp:1466 | a reply goes to its place exactly if the tags do not start over within the block |
| Replies.ReadStep | AoE/AoEController.cpp:1408-1553 | each reply keeps the invariant between buffer, ActualTransfer, count of replies, phase and interrupts |
| Replies.ReceivedGrows | AoE/AoEController.cpp:1506-1509 | a new reply brings exactly its sectors, and they were missing |
| Replies.BlockReadIsRead | AoE/AoEController.cpp:355-487 | when there is room for each reply as it comes in, any order of the replies, in any chains, rebuilds the disk's sectors, completes the byte count and raises one more interrupt, with the last |
| Replies.ReadCompleteIff | AoE/AoEController.cpp:1414-1532 | replies to all frames complete the command with one interrupt in any case, and with the whole byte count if and only if each brought its data and there was room for it |
| Replies.InterruptIff | AoE/AoEController.cpp:1418-1432 | a reply completes a read if and only if it is the last one expected or those before it brought the whole byte count; in the second case nothing of it is stored |
| Replies.Untouched | AoE/AoEController.cpp:1481-1509 | a byte that no reply reaches within its room stays as it was |
| WriteReport.WriteOutcome | AoE/AoEController.cpp:422-451 | an error is reported exactly if the last reply failed, or the first earlier reply with a status failed with an error byte |
| WriteReport.ReportedIffNotHidden | AoE/AoEController.cpp:440-449 | exactly when a failure that happened is not reported |
| WriteReport.HonestTargets | AoE/AoEController.cpp:1338-1392 | if success is status 0 and failures have an error byte, reported means some reply failed |
| WriteReport.ReadyStatusHidesFailure | AoE/AoEController.cpp:440-449 | a sequence of replies that hides a failure |
| WriteReport.ReadOutcome | AoE/AoEController.cpp:453-458 | a read reports an error exactly if its last reply failed or an earlier command has left a mark, and when that is what happened |
| WriteReport.EarlyFailureIsHidden | AoE/AoEController.cpp:453-458 | a read whose first reply failed and whose last succeeded reports no error |
| WriteReport.CancelledWriteMarks | AoE/AoEController.cpp:1908-1913 | exactly when a write that is cancelled leaves a mark |
| WriteReport.GoodReadAfterCancelledWrite | AoE/AoEController.cpp:1378-1392 | exactly when the next good read then reports an error |
| Controller.AoEController.AppendWriteData | AoE/AoEController.cpp:1560-1615 | takes the next chunk of the double buffer and counts it |
| Controller.AoEController.SetMtuSize | AoE/AoEController.cpp:2571-2577 | the room in a frame changes under a waiting command, and nothing else does |
| Controller.AoEController.IssueCommand | AoE/AoEController.cpp:1668-1835 | one frame to the controller's shelf and slot that decodes to the registers, with the next tag; the first tag becomes the base tag |
| Controller.AoEController.AsyncCommand | AoE/AoEController.cpp:1864-2100 | the loop and the left-overs hand over exactly the frames of the block, to the controller's shelf and slot, a read with a read code and a write with a write code of the same width, expect as many replies, and leave a read as `ReadOk` asks |
| Controller.AoEController.CompleteDataRead | AoE/AoEController.cpp:1408-1553 | the copying loops make the specified read step |
| Controller.AoEController.CopyRestOfChain | AoE/AoEController.cpp:1513-1535 | the loop over a chain stores what the two limits and the buffer size let through |
| Controller.AoEController.ReadResponse | AoE/AoEController.cpp:453-458 | one reply to a read is the specified step, an interrupt just when the step says so |
| Controller.AoEController.WriteResponse | AoE/AoEController.cpp:422-451 | one reply to a write is the specified step, an interrupt just when no reply is missing |
| Controller.AoEController.AsyncStatus | AoE/AoEController.cpp:1338-1392 | reports what WriteReport says and clears the bookkeeping |
| EndToEnd.AnsweredOnce | AoE/AoEService.cpp:679-740 | over every legal run no unicast tag comes twice among the ATA replies that a controller is given |
| EndToEnd.AllAnsweredIffNoForeign | AoE/AoEController.cpp:355-458 | as many replies as a block has frames answer all of them if and only if none of them is to something else |
| EndToEnd.CompletedIffNoForeign | AoE/AoEController.cpp:453-487 | the replies up to the one that completes a read, however early, answer all frames if and only if none of them is foreign |
| EndToEnd.ReadOverTransport | AoE/AoEController.cpp:1408-1553 | over any legal run, when no ATA reply given to the controller is foreign or an error and the MTU kept at each one leaves room for it, a block read is a plain read |
| EndToEnd.CompleteIffRoomy | AoE/AoEController.cpp:1414-1532 | over any legal run own replies to all frames complete the read, with the whole byte count if and only if the MTU kept at each reply left room for it and none reported an error |
| EndToEnd.NoSmallPortIsRoomy | AoE/AoEControllerInterface.cpp:1054-1070 | there is room for each reply if no port whose MTU is too small for the frames comes up between issue and last reply |
| EndToEnd.UnansweredStays | AoE/AoEController.cpp:1466-1509 | a frame that no reply answers leaves its part of the buffer as it was, if the foreign replies miss the block |
| EndToEnd.ReadIsReadIff | AoE/AoEController.cpp:1408-1553 | for a buffer that differs from the disk in every byte, and foreign replies whose data goes past the block (ForeignMiss), as many replies as frames leave the disk's bytes in it if and only if none was foreign, there was room for each and none reported an error |
| EndToEnd.SilentReadIff | AoE/AoEController.cpp:1338-1392 | likewise, a read that reports no error has left the disk's bytes if and only if no reply was foreign, there was room for each and no error was hidden |
| EndToEnd.LaterTagMisses | AoE/AoEController.cpp:1466 | the data of a foreign reply with a later tag, less than 2^32 bytes away, goes past the block |
| EndToEnd.EarlierTagMisses | AoE/AoEController.cpp:1466 | so does that of one with an earlier tag |
| EndToEnd.FarTagHits | AoE/AoEController.cpp:1466 | that of one 2^23 tags ahead goes where the first frame belongs |
| EndToEnd.CompletedWriteIsOnDisk | AoE/AoEController.cpp:430-451 | when no ATA reply given to the controller is foreign, and the frames answered with an error, if any, were carried out too, a completed write is on the disk, on top of whatever frames the target carries out on other sectors |
| Interleaved.WriteAmongOthers | AoE/AoEController.cpp:1864-1983 | a block write among frames that keep off its sectors ends as if it had been made last |
| Interleaved.LateFrameIff | AoE/AoEService.cpp:461-494 | a late frame leaves a block on the disk as it is if and only if it carries no other value for any of its bytes |
| EndToEnd.OnDiskIffNoForeign | AoE/AoEController.cpp:422-451 | if every frame changes something, completion means that the data is on the disk if and only if no foreign reply was counted |
| EndToEnd.OnDiskIffGood | AoE/AoEController.cpp:422-451 | if only frames answered without an error are sure to be carried out, completion means that the data is on the disk if and only if no reply was foreign and none reported an error |
| EndToEnd.SilentWriteIff | AoE/AoEController.cpp:1338-1392 | a write that reports no error is on the disk if and only if no reply was foreign and no error was hidden |
| ForeignReply.IdentifyIsAnsweredFirst | AoE/AoEController.cpp:2533-2562 | a legal run in which the reply to an identify and one own reply come in for a block of two frames |
| ForeignReply.ReadMissesSector | AoE/AoEController.cpp:453-458 | the read then completes with the byte count and an interrupt, its second sector never stored |
| ForeignReply.ForeignCompletesEarly | AoE/AoEController.cpp:1418-1432 | a foreign reply with as many bytes as the block makes the next own reply complete a read a reply early, with nothing of it stored |
| ForeignReply.WriteMissesSector | AoE/AoEController.cpp:422-451 | the write then completes with its second sector not on the disk |
| ShrunkRoom.SmallPortComesUp | AoE/AoEService.cpp:400-414 | a legal run in which a read is issued with an MTU of 9000 kept and answered with one of 1500 |
| ShrunkRoom.ReplyIsCutOff | AoE/AoEController.cpp:1414-1532 | its one reply of 17 sectors then completes the read with 1024 bytes, the rest of the buffer never stored |
| EndToEnd.WriteThenRead | AoE/AoEController.cpp:1864-1983 | what was written is read back, however both transfers are cut, ordered and repeated |

## Left out

- IOKit: command queueing, memory descriptors, registry properties. A command is an object with byte count, actual transfer, buffer and registers.
- mbufs, locks, allocation failures, timer arming and the interface filter. Timers are events that may come at any time.
- Access outside the command gate, and the variants under `#if 0` and NO_FLOW_CONTROL.
- Forced packets: they carry tags that do not come from the generator.
- registerAccess: it packs the address bytes in the opposite order to issueCommand, so there is no round trip.
- Identify replies, device byte swapping, config strings (but for their effect on the table of targets), user interface, preferences. What an identify reply does between commands is not modelled; one in the middle of a block is a foreign reply.
- The faked responses of FakeReturnTimer (AoE/AoEControllerInterface.cpp:473-486): they go to ata_response with tag 0 outside the transport. After a flush that was cancelled one is counted for the next block like a foreign reply, but `EndToEnd.Given` does not list it.
- MAC addresses and `remove_interface`; `m_nInterfacesInUse`, which link events change even when nothing comes up or goes down.
- An `ifnet_t` is the number of its port: a port that `ifnet_find_by_name` does not find is not modelled, and the pointer to the count in a queue entry is the count of the port the packet was sent on.
- Counts and windows are unbounded integers: the 32-bit wrap of a window or a count is not modelled. The estimator's 32-bit and 64-bit arithmetic is, and so are the 32-bit byte counts of a block.
- A gate action reads the clock once. The fields of a queue entry that the code reads after freeing it are taken before.
- The MTU of a port does not change. `adjust_mtu_sizes` is `Controller.AoEController.SetMtuSize` on every controller.
- Retransmit time-outs of 0 that `GetRtoUs` yields after a 64-bit wrap are in the model; the estimator lemmas exclude them by the bound on the samples.
- EthernetPorts.EInterfaces.GrowCwnd: growth by non-negative amounts, as in both calls.
- EthernetPorts.EInterfaces.EnableInterface: the port is found by its name; for one that is not the code goes on with an uninitialised ifnet_t.
- Service.AoEService.CgDisableInterface: the cancelling of the command of a target on the port, which belongs to IOKit, is not modelled; a frame of it that stays queued on another port is answered as a foreign reply later.
- Targets.TargetInfo.PickInterface: requires that some interface of a target that has any is active; otherwise the loop of the source does not end (`Targets.PickEndsIff`).
- Controller.AoEController.AsyncCommand: for 48-bit commands with a whole number of sectors, at most 255 to a frame, position 0, writes within the double buffer, and a count register that gives the number of whole frames; whether the transport takes a frame is the same for all frames of a command, as the ports in use do not change while the command gate is held.
- Controller.AoEController.IssueCommand: the extended registers only; the 24-bit ones are covered by `Wire.IncrementShortAdds` and `Blocks.PlanAgrees`. Writes at position 0 only, since the double buffer is filled from offset 0 but sliced from the position.
- Controller.AoEController.CompleteDataRead: checkTimeout never fires, and the header pointer is not NULL.
- EndToEnd.CompletedWriteIsOnDisk: takes it that a target carries out a write before it answers it. Without "no foreign reply" it is false of the code. Late frames of other writes may come in between, but not on the sectors of the block (`Interleaved.LateFrameIff`).
- EndToEnd.ReadOverTransport: likewise takes it that a target answers with the bytes of its disk, or with an error and no data, and is false of the code without "no foreign reply" or without room for each reply. For a command that is cancelled it speaks of the replies up to then.
- Dispatch.AtMostOnce: over runs with fewer tag allocations than the period, about 2^30, since replies are matched by tag alone.
- FrameSize.EveryFrameFits: for MTUs that hold the headers, since the subtraction in the sector count is unsigned.
