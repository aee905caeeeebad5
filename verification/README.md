# A verified model of the sliding-window file transfer

The repository transfers a file over UDP with a sliding window and selective reject. `server.c`
sends, `rcopy.c` receives, both keep packets in the ring buffer of `window.c`, `pdu.c` builds the
packets, `libcpe464/checksum.c` is the Internet checksum, and `libcpe464/PacketManager.cpp` is a
channel that loses and corrupts packets on purpose. This project models all of that in Dafny and
proves what the protocol promises, and exactly where the programs break the promise.

Check it with `dafny verify dfyconfig.toml`.

## How it is built

| file | what it holds |
|---|---|
| `Checksum.dfy` | `in_cksum` as a loop over a 32-bit accumulator, against the definition of section 4.1 of RFC 1071 |
| `Pdu.dfy` | the packet format: sealing, decoding, in-place resealing |
| `Channel.dfy` | message events, the packet manager, the drop list |
| `Modular.dfy`, `Ring.dfy`, `Window.dfy` | the ring buffer as a value, its refinement of a map, and the class that updates it in place |
| `Segmentation.dfy`, `Transfer.dfy` | cutting the file into chunks; which packets are genuine |
| `Events.dfy` | what a poll and a receive yield |
| `ReceiverMachine.dfy`, `ReceiverOrder.dfy`, `ReceiverAnswers.dfy`, `ReceiverRing.dfy`, `ReceiverContent.dfy`, `Rcopy.dfy` | the receiver: step functions, what holds on every trace, what it answers, what its ring holds, what it writes, and the class |
| `SenderMachine.dfy`, `SenderContent.dfy`, `SenderTermination.dfy`, `SenderAnswers.dfy`, `Server.dfy` | the sender: step functions, its window and packets, its termination, its patience and persistence, and the class |
| `Network.dfy` | both sides over a network that loses, repeats, delays, reorders and corrupts |
| `NetworkOrder.dfy` | the same system while no old RR slides the window |
| `LossFree.dfy` | both sides over two FIFO queues without loss or timeouts |
| `Reaching.dfy`, `Exceptions.dfy` | runs of both programs from the start, and what goes wrong in the cases the safety theorem excludes |

The classes `Window`, `PacketManager`, `RcopyClient` and `ServerChild` change their fields in
place as the C and C++ code does. Their contracts equate the whole new state with a step function
of the old one; the properties are proved about the step functions, on every trace. Packets are
byte sequences throughout: a slot is the full 1407-byte array of which a shorter packet overwrites
only the front, so reading a packet back with a wrong length is visible.

## Main results

1. **Corruption equals loss.** A packet built by `createPDU` verifies; a send delivers nothing, the
   same bytes, or the bytes with one complemented, and the last are always rejected. A rejected
   datagram is as good as lost: over every trace the client ends up as if it had never arrived
   (`ReceiverAnswers.RejectedIsLost`), and the server counts it as silence in the end-of-file wait.
2. **End-to-end safety, exactly** (`Network.EndToEndSafety`). Over every run of the two programs,
   whatever the network loses, repeats, delays, reorders or corrupts, every packet the server sent
   is genuine and every write of the client is the right chunk, taken from the right packet, if and
   only if three uses of a ring slot in the run find what they take for granted. The client's file is
   then a prefix of the server's, and equal to it when the client reports a finished transmission.
   Each condition is read off the slot before it is used:
   - a read of flush finds a slot stored for the number it reads, and if that is the short last
     packet, its length has been noted (`ReceiverContent.ReadTruthfulIff`); `window_isvalid` tests
     neither;
   - an SREJ, of any age, finds a slot that holds neither the end of file nor a packet of another
     length than the one named (`SenderContent.SrejGenuineIff`);
   - a timeout finds a slot at the lower bound that does not hold the end of file
     (`SenderContent.TimeoutGenuineIff`).

   Nothing is asked of the order, age or number of the packets that arrive. A false packet of the
   server harms nobody until the client accepts it (`Network.ClientSafety`).

   What leads to the client's failures: an RR older than `current - size` does no harm by
   itself, but it lifts the window: the server sends all it has left at once
   (`SenderTermination.OldRrFloods`). Only after one can the length of the short last packet be lost
   (`NetworkOrder.LengthLostOnlyAfterOldRr`). Without one the two windows overlap
   (`Network.WindowsOverlap`), and as long as no arrival in BUFFER is old or below the highest one,
   the client's ring holds exactly the packets buffered and not yet written
   (`ReceiverRing.OrderlyRunTidy`), every read of flush is good, and the file is safe
   (`NetworkOrder.OrderlyEndToEnd`).

   `Exceptions.dfy` gives a run of both programs from the start for each failure, and two for
   acknowledgements at the wrong time: an old RR, and the RR that answers a repeated FNAME_OK, which
   makes the server exit.
3. **Loss-free completion, exactly** (`LossFree.LossFreeCompletesIff`). Every interleaving is bounded
   and ends with both sides done and the file copied if and only if the window holds at least two
   packets or the file is a multiple of the packet size. Otherwise the server exits on an empty
   packet, because an RR for the last packet sends it into the end-of-file wait before it has read
   the end of file.
4. **Termination of the server** (`SenderTermination.ServerTerminates`). For every finite sequence of
   poll results followed by silence, `process_client` ends, within a bound on the packets sent.
5. **Persistence, exactly.** In silence the server resends the packet of the lower bound exactly ten
   times (`SenderAnswers.SilenceExact`) and gives up only after ten silent polls in a row, since any
   datagram restores its patience (`SenderAnswers.GivesUpOnlyAfterSilence`). The end-of-file wait ends
   well if and only if an EOF_ACK comes before ten failures, and sends a copy in every round
   (`SenderAnswers.EofLoopExact`). A client that waits in BUFFER has always asked for the packet it
   waits for (`ReceiverAnswers.EveryHoleAsked`).

Where comments and code differ the code is followed: the note in `libcpe464/checksum.c` says an odd
length reads one byte too far, but the loop handles a last odd byte by itself, and that is modelled.

## Model

| member | source | states |
|---|---|---|
| Checksum.InCksum | libcpe464/checksum.c:58-86 | the signed 32-bit accumulator does not overflow up to 65536 bytes and the result is the RFC 1071 checksum |
| Checksum.FoldIsOnesComplement | libcpe464/checksum.c:81-84 | folding all carries keeps the residue modulo 65535 and gives zero only for zero |
| Checksum.TwoStepsSuffice | libcpe464/checksum.c:82-83 | the fixed two-step fold equals folding until no carry is left, for every 31-bit sum |
| Checksum.VerifiesIff | libcpe464/checksum.c:58-86 | a packet is accepted if and only if its words add up to a nonzero multiple of 65535 |
| Checksum.OneByteChangeDetected | libcpe464/checksum.c:70-85 | two packets that differ in exactly one byte, anywhere and by anything, never both verify |
| Checksum.ByteOrderIndependent | libcpe464/checksum.c:70-79 | reading the words in either byte order puts the same two checksum bytes into the packet |
| Pdu.SealVerifies | pdu.c:41-45 | clearing the field and storing the checksum makes any bytes verify, odd lengths and all zeros included |
| Pdu.SealedDecodes | pdu.c:31-48 | a built packet verifies and decodes to its sequence number, flag and payload |
| Pdu.ControlDecodes | pdu.c:183-193 | an RR, SREJ or EOF_ACK verifies and the number in its payload is read back |
| Pdu.AcceptedIsSealed | pdu.c:196-220 | an accepted packet is what createPDU builds from its decoded parts, except exactly when its field is FFFF over a body that is not all zero |
| Pdu.ResealSealed | server.c:184-190 | rewriting flag and checksum of a stored packet gives the same packet under the new flag |
| Pdu.RewritesPreserveMeaning | server.c:401-431 | after any number of rewrites the packet verifies and keeps sequence number and payload |
| Pdu.Memcpy | pdu.c:35-38 | the buffer is changed in the copied range and nowhere else |
| Pdu.CreatePdu | pdu.c:31-48 | the front of the buffer becomes the sealed packet and the rest is untouched |
| Pdu.RecvBuf | pdu.c:196-220 | length, buffer contents, flag and sequence number after a receive, truncation at 1407 bytes included |
| Channel.RunDrop | libcpe464/MsgEvents/errorDrop.cpp:29-63 | result 2 exactly when set to drop all or when the message number is listed, 0 otherwise |
| Channel.RunFlip | libcpe464/MsgEvents/errorFlipBits.cpp:9-27 | complements one byte in place |
| Channel.PacketManager.constructor | libcpe464/PacketManager.cpp:35-39 | message numbers start after zero and both event lists are empty |
| Channel.PacketManager.AddMsgEventStandard | libcpe464/PacketManager.cpp:76-86 | the event goes to the end of the standard list |
| Channel.PacketManager.AddMsgEventRandom | libcpe464/PacketManager.cpp:88-98 | the event goes to the end of the random list |
| Channel.PacketManager.RunEvent | libcpe464/MsgEvents/IMsgEvent.h:16-45 | the result code and the effect on the buffer of each event |
| Channel.PacketManager.RunMsgEvents | libcpe464/PacketManager.cpp:100-130 | runs the standard events in order up to the first drop, and reports a drop, a change or neither |
| Channel.PacketManager.ProcessEvents | libcpe464/PacketManager.cpp:132-189 | the fate of a packet under the standard events and one drawn random event |
| Channel.PacketManager.SendTo | libcpe464/PacketManager.cpp:354-416 | counts the message and delivers its fate while the caller's buffer keeps its bytes |
| Channel.ThreeFates | libcpe464/PacketManager.cpp:384-413 | with flips on the random list only, a send delivers nothing, the exact bytes, or the bytes with one complemented |
| Channel.FateExactly | libcpe464/PacketManager.cpp:132-189 | which fate happens when: lost by a standard or a random drop, drop-all included; one byte complemented, the one drawn, by a flip that strikes; unchanged otherwise |
| Channel.DropAllLosesAll | libcpe464/MsgEvents/errorDrop.cpp:29-63 | an event that drops all, on the standard list, loses every message |
| Channel.ComplementIsXor | libcpe464/MsgEvents/errorFlipBits.cpp:24 | the complement is the xor with FF |
| Channel.AcceptedIsUnmodified | libcpe464/PacketManager.cpp:159-178 | of what arrives from a packet that verifies, exactly the unmodified packet is accepted |
| Channel.DropListIsExact | libcpe464/MsgEvents/errorDrop.cpp:21-63 | with a drop list and otherwise only printing events on the standard list, a run delivers the sent packets without the listed positions, in order |
| Ring.RingRefinesMap | window.c:21-84 | over every run whose live numbers stay in one moving window the ring and a map agree on validity and contents |
| Ring.StepRefines | window.c:69-84 | one addition, removal or slide keeps the agreement, so no operation disturbs another live number |
| Ring.OutsideTheWindow | window.c:21-24 | beyond one window the slot filled for a number answers for the number one lap later |
| Window.Window.constructor | window.c:41-53 | the initial bounds and cleared slots |
| Window.Window.IsValid | window.c:21-24 | the validity bit of the slot, whatever number is stored there |
| Window.Window.GetPacket | window.c:31-34 | the bytes of the slot |
| Window.Window.GetLower | window.c:26-29 | the bytes of the slot of the lower bound |
| Window.Window.Full | window.c:36-38 | full means current equals upper |
| Window.Window.Slide | window.c:56-59 | new bounds, nothing else changed |
| Window.Window.CurUpdate | window.c:63-65 | current advances by one, nothing else changed |
| Window.Window.Add | window.c:69-77 | the packet overwrites the front of its slot, which becomes valid; every other slot is unchanged |
| Window.Window.Remove | window.c:81-84 | one slot becomes invalid, bytes kept; nothing else changed |
| Window.Window.Rewrite | server.c:184-190 | a write through the returned pointer changes the bytes of one slot only |
| Segmentation.SplitJoins | server.c:269-314 | joining the chunks gives the file, and every chunk but the last is full |
| Segmentation.SplitCount | server.c:269-294 | the number of chunks is the file length over the packet size, rounded up, so the end of file gets the number after that |
| Segmentation.ShortIff | server.c:300-304 | the last packet is short exactly when the length is not a multiple of the packet size |
| Segmentation.PrefixOfFile | server.c:269-314 | the first packets carry a prefix of the file |
| Transfer.ChunkLength | server.c:297-304 | a payload is full unless it is the last one of a file that ends short |
| ReceiverOrder.EveryTraceOrdered | rcopy.c:183-569 | on every trace: no RR or SREJ runs ahead of expected, one write per accepted packet, expected below highest in BUFFER and never above it in FLUSH, nothing written or sent is ever taken back |
| ReceiverOrder.StepOrdered | rcopy.c:183-569 | each step keeps that, never lowers expected, and every SREJ it sends names the expected packet |
| ReceiverOrder.FlushOrdered | rcopy.c:427-567 | flush stops at highest or at a hole, returns to BUFFER only with a hole at expected, to RECV_DATA only past highest |
| ReceiverOrder.StartOrdered | rcopy.c:127-139 | the initial state satisfies it |
| ReceiverAnswers.RecvDataAnswers | rcopy.c:230-297 | each accepted packet in RECV_DATA is answered by exactly one control packet: RR or, for the end of file, EOF_ACK of its number plus one, or an SREJ for the expected one; where it leads, and how the client's own number and highest move |
| ReceiverAnswers.BufferAnswers | rcopy.c:331-410 | in BUFFER only an old packet is answered, by an SREJ for the expected one and an RR for itself; where each packet leads |
| ReceiverAnswers.InOrderSlot | rcopy.c:252-260 | the packet that closes the hole in BUFFER frees its slot and no other; RECV_DATA leaves the slot of the packet it takes as it is |
| ReceiverAnswers.NoteKeepsLength | rcopy.c:210-227 | a DATA packet's own length is the one it will be read back with, and nothing else changes a length |
| ReceiverAnswers.ArrivalNoted | rcopy.c:348-360 | RECV_DATA notes every accepted packet, BUFFER every one that is not old |
| ReceiverAnswers.FlushAnswers | rcopy.c:443-565 | flush leaves for BUFFER with an SREJ and an RR for the hole, for RECV_DATA with an RR, and ends with an EOF_ACK of the end of file |
| ReceiverAnswers.EveryHoleAsked | rcopy.c:268-287 | on every trace: whenever the client waits in BUFFER, an SREJ for the expected packet has been sent |
| ReceiverAnswers.RejectedIsLost | rcopy.c:203-207 | on every trace: the client ends up as if the datagrams that do not verify had never arrived |
| ReceiverAnswers.TimeoutLeaves | rcopy.c:194-198 | a timeout ends a waiting client with nothing sent or written |
| ReceiverAnswers.LeavesOnTimeoutIff | rcopy.c:314-318 | on every trace: a client still at work has heard no timeout, and one that has heard none has not left on one |
| ReceiverRing.TidyIff | rcopy.c:267-410 | the ring holds exactly the packets buffered, byte for byte: none in RECV_DATA, in BUFFER those in (expected, highest] with highest among them; kept by an in-window arrival if and only if it is neither old nor below highest in BUFFER |
| ReceiverRing.FlushTidy | rcopy.c:427-544 | flush keeps that, writes the buffered packets in order, its unguarded last read included, each with the payload it came with if and only if the length taken for it is its own, and leaves RECV_DATA with an empty ring |
| ReceiverRing.OrderlyRunTidy | rcopy.c:142-180 | over every run of such arrivals the ring is exactly the packets buffered and not yet written |
| ReceiverRing.StartTidy | rcopy.c:572-588 | the initial ring is the empty map |
| ReceiverContent.EventFaithful | rcopy.c:183-413 | a genuine packet, in or out of the window, in any order, over a free slot or a stale one, keeps what is written and stored true |
| ReceiverContent.ReadTruthfulIff | rcopy.c:438-467 | a flush write is the chunk of packet expected, taken from packet expected, if and only if the slot was stored for that number and a short last packet has its length noted |
| ReceiverContent.SlotYieldsChunkIff | rcopy.c:443-462 | a packet is read back whole from its slot if and only if it is not the short last one or its length was noted |
| ReceiverContent.WriteSlotFaithful | rcopy.c:438-484 | after a good read everything written and stored is true still |
| ReceiverContent.FlushTruthfulIff | rcopy.c:415-569 | all that flush has written by its end is true if and only if every one of its reads was good |
| ReceiverContent.RunTruthfulIff | rcopy.c:142-180 | over every run of genuine packets every write is the right chunk from the right packet if and only if every read of flush was good |
| ReceiverContent.WritesAreAPrefix | rcopy.c:183-569 | after every run of genuine packets with good reads the bytes written are a prefix of the file, all of it when finished |
| ReceiverContent.OrderlyWritesAreAPrefix | rcopy.c:183-569 | the same, for the receiver alone, for every orderly in-window run that buffers the short last packet only under the DATA flag |
| Rcopy.RcopyClient.constructor | rcopy.c:127-139 | the initial state of the receiver |
| Rcopy.RcopyClient.SendBuf | pdu.c:183-193 | one sealed control packet is appended to what was sent |
| Rcopy.RcopyClient.NoteLengths | rcopy.c:210-227 | a DATA packet of unusual length and the end of file are noted |
| Rcopy.RcopyClient.Receive | rcopy.c:201-207 | a datagram of any length, cut to the buffer, is accepted if and only if the checksum over it is zero |
| Rcopy.RcopyClient.RecvDataState | rcopy.c:183-299 | recv_data is the machine's step, and a rejected datagram changes nothing |
| Rcopy.RcopyClient.BufferState | rcopy.c:301-413 | buffer is the machine's step, and a rejected datagram changes nothing |
| Rcopy.RcopyClient.WriteFromWindow | rcopy.c:438-467 | writes the slot of expected over the noted length, frees it, advances |
| Rcopy.RcopyClient.FlushState | rcopy.c:415-569 | flush, loop included, is the machine's step; back in BUFFER it has just asked for the hole |
| Rcopy.RcopyClient.ProcessFile | rcopy.c:142-180 | the state loop is the machine's run; what is on disk only grows, one write per expected packet, and is a prefix of the file after a run of genuine packets with good reads |
| SenderContent.InnerSteady | server.c:258-319 | on every trace current is the number of the next packet and the sender waits only with the window full or the end of file sent |
| SenderContent.OuterSteady | server.c:541-598 | the same for a poll, and the zero-wait branch is never taken |
| SenderContent.StartSound | server.c:105-121 | the initial state satisfies the sender invariant |
| SenderContent.SendDataSound | server.c:258-319 | sending a chunk or the end of file keeps it: unread rest, lengths, the last size packets in their slots, all packets sent genuine |
| SenderContent.SendDataInWindow | server.c:264-267 | sending keeps lower, current and upper in order |
| SenderContent.LengthRecovered | server.c:175-181 | the length kept for a sent data packet is its true length |
| SenderContent.SrejSound | server.c:401-448 | an SREJ for a packet in the ring sends exactly that packet and keeps the invariant |
| SenderContent.SrejAnsweredIff | server.c:412-442 | an SREJ is answered with the packet it names if and only if that packet is still in the ring |
| SenderContent.SrejGenuineIff | server.c:401-448 | an SREJ of any age is answered with a genuine packet, and the invariant kept, if and only if its slot holds neither the end of file nor a packet of another length |
| SenderContent.Occupant | window.c:31-34 | a slot holds the newest packet sent that shares it |
| SenderContent.TimeoutSound | server.c:164-199 | with the window in order a timeout sends exactly the packet of the lower bound and keeps the invariant |
| SenderContent.TimeoutGenuineIff | server.c:164-199 | a timeout sends a genuine packet, and the invariant is kept, if and only if the slot of the lower bound does not hold the end of file |
| SenderContent.RrWindowIff | server.c:376-391 | an RR up to current keeps every packet in its slot whatever its age; lower, current and upper stay in order if and only if it is also not older than current - size |
| SenderContent.EofSendSound | server.c:460-470 | the end-of-file loop sends the end-of-file packet, or exits on an empty one if it was never built |
| SenderTermination.ServerTerminates | server.c:123-159 | every run ends and sends no more packets than the budget: what is left of the file, ten resends and an answer per poll result, ten resends at the end, ten end-of-file copies if that loop can be entered |
| SenderTermination.SilentResends | server.c:541-572 | a server that waits and hears nothing resends at most ten times and ends |
| SenderTermination.BurstLength | server.c:264-316 | a burst of SEND_DATA is as long as the window is open or as what is left, and all of it when current is above upper |
| SenderTermination.OldRrFloods | server.c:383-391 | after an RR older than current - size everything left goes out at once, the end of file included |
| SenderTermination.EofCopiesBounded | server.c:462-492 | at most ten end-of-file copies plus one per valid datagram that is not an EOF_ACK, and nothing else |
| SenderAnswers.DatagramResets | server.c:541-572 | any datagram polled in wait_on_ack sets the retry count to zero; a timeout raises it by one and leads to a resend |
| SenderAnswers.AckLeadsTo | server.c:337-392 | where each datagram takes wait_on_ack: rejected nowhere, RR and SREJ to SEND_DATA, the RR after a short last packet to the end-of-file wait, anything else to the end |
| SenderAnswers.UnsentSrej | server.c:435-442 | an SREJ is answered with one packet, unless it names the next packet to be sent |
| SenderAnswers.GivesUpOnlyAfterSilence | server.c:545-548 | over every trace without ten timeouts in a row the server does not give up in WAIT_ON_ACK |
| SenderAnswers.TimeoutSendsLower | server.c:164-199 | a timeout sends one packet, with the number stored in the slot of the lower bound |
| SenderAnswers.SilenceExact | server.c:541-572 | in silence the server resends the packet of the lower bound exactly as often as it has retries left, and ends |
| SenderAnswers.SoundHasLower | server.c:167-181 | the slot of the lower bound holds a packet whenever something is outstanding |
| SenderAnswers.EofPollLeadsTo | server.c:472-489 | in the end-of-file wait a rejected datagram is exactly a timeout, and only an EOF_ACK ends it well |
| SenderAnswers.EofLoopExact | server.c:462-492 | the end-of-file wait ends well if and only if an EOF_ACK comes before its tries are used up, and sends a copy in every round |
| SenderAnswers.EofSilenceExact | server.c:462-475 | unanswered, the end of file is sent once for every try left, ten times from a fresh start |
| Server.ServerChild.constructor | server.c:105-121 | the initial state of the sender |
| Server.ServerChild.Transmit | libcpe464/PacketManager.cpp:365-369 | an empty packet ends the process, any other is sent |
| Server.ServerChild.SendDataState | server.c:258-319 | send_data is the machine's step |
| Server.ServerChild.RewriteStored | server.c:184-190 | flag and checksum of one slot are rewritten in place over the given length |
| Server.ServerChild.TimeoutOnAckState | server.c:164-199 | timeout_on_ack is the machine's step |
| Server.ServerChild.SendSrej | server.c:401-448 | send_srej is the machine's step, the unsent case included |
| Server.ServerChild.WaitOnAckState | server.c:321-399 | wait_on_ack is the machine's step; any datagram resets the retry count, a timeout raises it by one and leads to a resend |
| Server.ServerChild.WaitOnEofAckState | server.c:450-494 | the loop terminates with the machine's run, well if and only if an EOF_ACK comes before its tries are used up, with a copy sent in every round |
| Server.ServerChild.ProcessClient | server.c:105-160 | the state loop terminates on every finite inbox with the machine's run and within the budget |
| Network.StepJoinedIff | server.c:123-159 | the joint invariant of both sides is kept by every step whose slot is as expected, and any other step sends or writes something false |
| Network.AckDecodes | rcopy.c:230-297 | an acknowledgement that reaches the server names a packet the client expects or has, an SREJ one that was sent |
| Network.EndToEndSafety | rcopy.c:142-180 | over every run, all packets sent are genuine and all writes right if and only if every rewrite and read of a slot was good; then the client's file is a prefix of the server's and equal when finished, and expected lies between lower and current |
| Network.ClientSafety | rcopy.c:183-569 | over every run in which the client accepts no false packet, whatever the server has sent, its writes are right if and only if its reads are good, and its file is then a prefix |
| Network.WindowsOverlap | window.c:56-59 | without an RR older than current - size no more than size packets are outstanding and the client expects one of them or the next |
| Network.DeliveredFromServer | libcpe464/PacketManager.cpp:384-413 | whatever the channel makes of a packet the server sent is lost, the packet, or garbage that does not verify |
| Network.DeliveredFromClient | libcpe464/PacketManager.cpp:384-413 | the same for the client's packets |
| Network.ShortFilesNeverResendEof | server.c:383-387 | with the window in order, a file that ends short never has its end of file resent by a timeout |
| NetworkOrder.StepTimely | server.c:376-391 | without an old RR, a short last packet goes out only under the DATA flag while the client expects an earlier one, and is buffered only with its length noted |
| NetworkOrder.LengthLostOnlyAfterOldRr | rcopy.c:348-357 | so in every run without an old RR in which the numbers in the slots are good, the lengths are too |
| NetworkOrder.OrderlyEndToEnd | rcopy.c:142-180 | in every run without an old RR or a disordered arrival, with good rewrites at the server, the reads of flush are good, the file is safe and the windows overlap |
| LossFree.NeverStuck | server.c:321-399 | without loss some step is possible until both sides are done |
| LossFree.MoveWorks | server.c:123-159 | every step leaves less to do |
| LossFree.LossFreeRun | rcopy.c:230-265 | loss-free runs are bounded, the client never leaves RECV_DATA, and the copied file is the file |
| LossFree.LossFreeCompletesIff | server.c:383-387 | a run that cannot go on is complete if and only if the window holds two packets or the file is a multiple of the packet size |
| Exceptions.StaleSlotCorrupts | rcopy.c:252-263 | for every file of seven packets or more whose third and sixth differ a run from the start, without an old RR, after which packet 3 is on disk in place of packet 6 |
| Exceptions.LostLengthCorrupts | rcopy.c:348-357 | for every file of four packets, the last short, a run from the start after which stray bytes follow the whole file |
| Exceptions.ResentEofIsNotGenuine | server.c:164-194 | a timeout with the end of file in the slot of the lower bound sends it as a data packet that verifies |
| Exceptions.ResentEofCorrupts | rcopy.c:230-260 | from every such state a waiting client appends that packet's payload to the finished file |
| Exceptions.EmptyFileCorrupted | server.c:164-199 | a run from the start that does so: an empty file becomes one of a full packet |
| Exceptions.OldSrejCorrupts | server.c:401-448 | for every file of two full packets a run from the start in which an SREJ outlives its packet, the end of file goes out as data, and the client appends it |
| Exceptions.OldRr | server.c:383-391 | for every file of three packets or more a run from the start in which an old RR makes the server send all the rest at once |
| Exceptions.HandshakeAborts | server.c:383-387 | for every file of more packets than the window a run from the start in which a repeated FNAME_OK makes the server exit on an empty packet |

## Left out

- Sockets, poll, fork, signals, address lookup and argument checking: a poll is an event, a timeout or a datagram.
- Sequence numbers that wrap at 2^32: they are unbounded here, and files are taken to have fewer than 2^32 - 2 packets.
- Datagrams shorter than the 7-byte header, and RR or SREJ packets without their 4-byte number: the C code reads past them.
- The byte arithmetic on a big-endian host, beyond the lemma that it makes no difference to the packet.
- File errors: read returns the next bytes of a fixed file, write appends; a failing read or open is not modelled.
- The filename handshake (start_state, filename and the client's processSelect): small state machines with a retry counter; the transfer starts after it, but the network may repeat its FNAME_OK.
- How random events are drawn: any event of the random list and any byte may be chosen.
- Printing, diagnostics and environment settings.
- Channel.ThreeFates: for flips on the random list only, which is where SettingsManager.cpp puts them; two flips on one packet can cancel out.
