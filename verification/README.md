# Reliable transport, checksum and router: a verified model

A Dafny model of two laboratory systems and proofs about them:

- **lab2-rtp**: a reliable transport over UDP. `sendMessage`/`recvMessage` use cumulative ACKs and resend the
  whole window; `sendMessageOpt`/`recvMessageOpt` acknowledge every packet and resend only what is missing. Both
  ends keep their window in a ring buffer, and every packet is sealed with a CRC-32.
- **lab3-router**: routers that exchange distance vectors, forward data packets, and translate addresses
  between an internal and an external network.

`dafny verify dfyconfig.toml` verifies the project.

## How the model is laid out

| file | what it holds |
|---|---|
| `Words.dfy`, `Crc32.dfy`, `CrcValues.dfy`, `RtpPacket.dfy` | unsigned words, the checksum (program and reference), its polynomial and a check value, sealed packets |
| `Transfer.dfy`, `Channels.dfy`, `Ring.dfy` | the message cut into chunks; messages in flight; ring positions |
| `Receiver.dfy`, `Sender.dfy` | the two ends: what each loop branch does to a map or a log, and the classes with the program's ring buffers, indices and loops, proved against it |
| `Protocol.dfy` | configurations and actions, shared by both modes |
| `BasicProtocol.dfy` | basic mode over a network that loses, copies and reorders |
| `OptProtocol.dfy`, `OptProgress.dfy` | optimised mode: safety and the slide; what can still complete |
| `OptAbort.dfy`, `OptReordering.dfy` | the receiver's abort, and which transfers can always complete |
| `DistanceVector.dfy`, `Nat.dfy`, `Router.dfy` | one router: table, address pool, and the object that handles a packet |
| `DvNetwork.dfy`, `DvConvergence.dfy`, `DvRounds.dfy` | all routers exchanging vectors |
| `Forwarding.dfy`, `HostJourney.dfy` | data packets on their way, to a router, a host, or the border |
| `Orbits.dfy`, `Traps.dfy`, `LoopFreedom.dfy`, `TrapRuns.dfy`, `PortOrder.dfy`, `ZeroCost.dfy` | exactly when packets can circle |
| `LocalDelivery.dfy`, `Translation.dfy` | all routers and the tables they share; packets out through the border, and answers back in |

A protocol run is a sequence of actions: one pass through part of a loop, one packet received, or something the
network does. Messages in flight form a sequence from which any may be delivered, lost or copied, so that a
FIFO channel is the special case in which only the first is delivered and none is copied. The classes in
`Receiver.dfy`, `Sender.dfy` and `Router.dfy` carry the program's fields, and each method's contract equates its
effect with the function or relation the protocol runs on; most also say outright, in terms of the fields, what
that effect is.

Machine words are natural numbers with explicit bounds: `w & 1` is `w % 2`, `w >> 8` is `w / 256`, and exclusive or
is defined bit by bit.

## Findings

- **The slide of the optimised sender overshoots** (sender_def.c:348-355). The loop reads `is_acked` for a whole lap,
  also past `nxt_seq_num`, where a flag may be left over from the previous lap. An ACK makes `send_base` overshoot
  exactly when it is the ACK of `send_base`, everything else sent has been counted, the window is not full, and at
  least one whole window has been sent (`SlideExact`). The last condition already holds at `nxt_seq_num == W`, so being
  in the first lap is not enough to be safe; `nxt_seq_num < W` is. Safety is not affected (`OptSafe`), but a chunk slid
  past without being counted keeps the transfer from ever completing (`DoomedForever`). That can happen if and only
  if W >= 2 and the message is longer than W full packets (`DoomExact`), and then without any fault of the network:
  sending one packet at a time is enough (`DoomReachable`).
- **The optimised receiver can abort, or strand a packet**, when its window is smaller than the sender's: without any
  fault of the network it takes its "illegal pkt seq num" exit (`AbortExact`), and if the ACKs of packets far behind
  it are lost, another copy of them can only make it abort (`StrandedReachable`, `StrandedForever`). Where packets may
  be reordered, a late copy makes it abort for larger windows too, whenever the sender can be made to send more
  packets than the receiver's window holds (`AbortExactAnyOrder`).
- **When an optimised transfer can always complete** can be told beforehand: if and only if the receiver's window is at
  least the sender's, and the sender's window is 1 or holds the whole message (`CompletionExact`).
- **Basic mode can lock up** (receiver_def.c:186-218). The receiver does not acknowledge a packet it has already
  written, so if all ACKs of a full window are lost nothing ever changes again. This is the only way to get stuck
  (`CompletesUnlessStuck`).
- **Routers can forward in a circle**, but only along links of cost 0: packets for a destination can circle if and only
  if some ring of free links keeps clear of it, and a router of that ring has, on a later port than the ring's, the
  start of a way to the destination that keeps clear of the ring (`LoopFreeExact`). Some numbering of the ports makes
  that so if and only if free links form a circle from which the destination can be reached
  (`LoopFreeUnderAnyPorts`). It can happen in a network at rest (`ZeroCostLoops`).

## Model

| member | source | states |
|---|---|---|
| Crc32.Crc32ForByte | lab2-rtp/Lab2-RTP/src/util.c:3-7 | the loop computes the table entry used by the byte update |
| Crc32.Table.Run | lab2-rtp/Lab2-RTP/src/util.c:9-16 | whether or not the static table was filled before, the loop folds all bytes, and leaves the table usable |
| Crc32.Table.ComputeChecksum | lab2-rtp/Lab2-RTP/src/util.c:18-22 | the result is the bit-serial reflected CRC-32 of section 8 of RFC 1952 |
| Crc32.UpdateIsFeed | lab2-rtp/Lab2-RTP/src/util.c:3-15 | one table-driven update of the complemented register is eight ordinary bit steps, for every register and byte |
| Crc32.ChecksumIsCrc | lab2-rtp/Lab2-RTP/src/util.c:3-22 | for every byte sequence the program's value, started at 0 without a final complement, is the RFC 1952 CRC |
| Crc32.BurstDetected | lab2-rtp/Lab2-RTP/src/util.c:9-22 | two different inputs of equal length that agree outside some 32 consecutive bits have different checksums |
| Crc32.FourBytesDetected | lab2-rtp/Lab2-RTP/src/util.c:9-22 | in particular two inputs that differ only inside four consecutive bytes |
| CrcValues.PolyIsStandard | lab2-rtp/Lab2-RTP/src/util.c:5 | the constant is the generator polynomial of ITU-T V.42, coefficient by coefficient |
| CrcValues.CheckValue | lab2-rtp/Lab2-RTP/src/util.c:3-22 | the checksum of one concrete message, which depends on the polynomial, both complements and the order of bits and bytes |
| RtpPacket.LittleEndianAt | lab2-rtp/Lab2-RTP/src/rtp.h:29-35 | byte i of a header field is the field shifted right by 8 i bits, modulo 256 |
| RtpPacket.CoveredIs | lab2-rtp/Lab2-RTP/src/rtp.c:2-14 | the covered bytes are type, length and sequence number low byte first, four zeros for the checksum, and the used part of the payload |
| RtpPacket.Packet.SetHeader | lab2-rtp/Lab2-RTP/src/rtp.c:2-9 | sets exactly the header, keeps the payload, and the checksum is that of those eleven bytes followed by the used payload |
| RtpPacket.Packet.Check | lab2-rtp/Lab2-RTP/src/rtp.c:16-21 | true exactly for a packet whose checksum is that of the same bytes; the packet is not modified |
| RtpPacket.DamageRejected | lab2-rtp/Lab2-RTP/src/rtp.c:16-21 | a sealed packet whose type, sequence number or checksum field is altered, or whose payload is altered within four consecutive bytes, fails the check |
| Transfer.ReadIsChunk | lab2-rtp/Lab2-RTP/src/sender_def.c:177-179 | reading on from the current file position yields the next chunk, so the packets sent are the chunks in order |
| Receiver.Cache.CachePacket | lab2-rtp/Lab2-RTP/src/receiver_def.c:71-78 | the ring then holds the packet at its sequence number and everything else as before; next number and file are untouched |
| Receiver.Cache.MinNotCached | lab2-rtp/Lab2-RTP/src/receiver_def.c:80-90 | returns the least number above the next expected one that is not held, a full window included |
| Receiver.Cache.WriteUpTo | lab2-rtp/Lab2-RTP/src/receiver_def.c:209-216 | writes the held payloads below m in order, forgets those, keeps the rest, and moves the ring |
| Receiver.FlushDelivers | lab2-rtp/Lab2-RTP/src/receiver_def.c:201-216 | exactly the packets up to the first gap are delivered, later ones stay cached, and the slot of the next number is empty |
| Receiver.Cache.OnDataBasic | lab2-rtp/Lab2-RTP/src/receiver_def.c:184-219 | a packet outside the window changes nothing and gets no ACK; one ahead is cached and answered with the number expected; the expected one is written with all that follow without a gap and answered with the first number missing |
| Receiver.Cache.OnDataOpt | lab2-rtp/Lab2-RTP/src/receiver_def.c:283-333 | the same effects on the window; every packet up to its end is answered with its own number, except those more than a window behind, which are the abort |
| Receiver.BasicKeeps | lab2-rtp/Lab2-RTP/src/receiver_def.c:186-218 | the file stays a prefix of the message in whole chunks, no packet held is forgotten, every packet of the window is kept and acknowledged with the next number expected, and no other is acknowledged |
| Receiver.OptKeeps | lab2-rtp/Lab2-RTP/src/receiver_def.c:287-331 | the same faithfulness; a packet is acknowledged if and only if it lies within one window on either side of the next number, and then it is held or written; the abort is for older ones only |
| Sender.BasicSender.CachePkt | lab2-rtp/Lab2-RTP/src/sender_def.c:70-74 | the new packet goes to its own slot and the rest of the window stays |
| Sender.BasicSender.TryFill | lab2-rtp/Lab2-RTP/src/sender_def.c:175-189 | if the window has room, sends and logs the next 1461 bytes, or what is left, under the next number; otherwise does nothing |
| Sender.BasicSender.HandleAck | lab2-rtp/Lab2-RTP/src/sender_def.c:205-219 | slides the window up to the ACK, never back, and counts min(message length, sent + 1461 per packet); the ring stays aligned with send_base |
| Sender.CreditIs | lab2-rtp/Lab2-RTP/src/sender_def.c:211-217 | n packets credited one by one are min(message length, sent + 1461 n) |
| Sender.BasicSender.OnTimeout | lab2-rtp/Lab2-RTP/src/sender_def.c:223-239 | sends exactly the packets send_base, send_base + 1, ... below nxt_seq_num, in that order: the sequence test filters none |
| Sender.OptSender.TryFill | lab2-rtp/Lab2-RTP/src/sender_def.c:303-320 | the same as in basic mode; the flag of the slot is cleared and no packet loses its ACK |
| Sender.OptSender.HandleAck | lab2-rtp/Lab2-RTP/src/sender_def.c:339-360 | outside the window or counted before: nothing; else its bytes are counted, and if it is send_base the window slides to the first slot not flagged, or a whole lap |
| Sender.OptSender.Slide | lab2-rtp/Lab2-RTP/src/sender_def.c:348-354 | the loop stops at the first slot whose latest packet is not counted, or after one lap |
| Sender.OptSender.OnTimeout | lab2-rtp/Lab2-RTP/src/sender_def.c:365-384 | sends every uncounted packet of the window, each once, in ascending order, and nothing else; nothing after an overshoot |
| Sender.UnackedComplete | lab2-rtp/Lab2-RTP/src/sender_def.c:368-382 | a timeout leaves out no uncounted packet of the window |
| Sender.UnackedAscending | lab2-rtp/Lab2-RTP/src/sender_def.c:368-382 | a timeout sends in ascending order of sequence number |
| BasicProtocol.BasicSafe | lab2-rtp/Lab2-RTP/src/sender_def.c:173-240 | in every run: file is a prefix of the message, the counters of the two ends are ordered, no ACK is ahead of the receiver, sent is min(length, 1461 send_base), and normal exit means file equals message |
| BasicProtocol.NoWrapAround | lab2-rtp/Lab2-RTP/src/sender_def.c:173-240 | in every run all sequence numbers and window sums stay below 2^31 |
| BasicProtocol.StuckForever | lab2-rtp/Lab2-RTP/src/receiver_def.c:186-218 | with the window used up, all of it written and no newer ACK in flight, no continuation changes sender or receiver |
| BasicProtocol.StuckReachable | lab2-rtp/Lab2-RTP/src/receiver_def.c:186-218 | such a state is reachable for every window size and non-empty message |
| BasicProtocol.CompletesUnlessStuck | lab2-rtp/Lab2-RTP/src/sender_def.c:205-239 | from every reachable state some continuation completes the transfer if and only if that state is not stuck |
| OptProtocol.OptSafe | lab2-rtp/Lab2-RTP/src/sender_def.c:300-385 | in every run, overshoot included: what is counted is carried by distinct packets the receiver has, its next slot is never occupied, and normal exit means file equals message |
| OptProtocol.SlideExact | lab2-rtp/Lab2-RTP/src/sender_def.c:339-358 | an ACK leaves everything left of the window counted if and only if it does not arrive at an overshooting moment |
| OptProtocol.SlideBoundary | lab2-rtp/Lab2-RTP/src/sender_def.c:309-358 | over whole runs: all below send_base is counted if and only if no ACK overshot; a window of 1 never overshoots |
| OptProgress.DoomReachable | lab2-rtp/Lab2-RTP/src/sender_def.c:303-358 | for every window of at least 2 and every message longer than a window, a run in which nothing is lost, copied or reordered leaves a non-empty chunk uncounted behind the window |
| OptProgress.DoomExact | lab2-rtp/Lab2-RTP/src/sender_def.c:303-358 | some run leaves a non-empty chunk behind if and only if the window is at least 2 and the message longer than a window |
| OptProgress.DoomedForever | lab2-rtp/Lab2-RTP/src/sender_def.c:339-358 | from then on no continuation ever completes |
| OptProgress.StrandedForever | lab2-rtp/Lab2-RTP/src/receiver_def.c:318-331 | a packet of the window that is uncounted, whose ACK is not in flight, and that is more than the receiver's window behind it, keeps the transfer from completing in every continuation |
| OptProgress.CompletesUnlessLost | lab2-rtp/Lab2-RTP/src/sender_def.c:303-384 | for any two windows, a reachable state with both ends at work can complete if and only if no non-empty chunk was left behind the window and none is out of the receiver's reach |
| OptProgress.OptNoWrapAround | lab2-rtp/Lab2-RTP/src/sender_def.c:300-385 | as long as no ACK has overshot, all sequence numbers and window sums stay below 2^31; after that they grow no faster than the run |
| OptProgress.BaseAcknowledged | lab2-rtp/Lab2-RTP/src/receiver_def.c:318-331 | another copy of the packet at send_base is acknowledged, even if it was written long ago, if and only if the receiver is at most one of its own windows ahead; otherwise the receiver aborts |
| OptAbort.NoAbortInOrder | lab2-rtp/Lab2-RTP/src/receiver_def.c:318-331 | over an order-keeping data channel, which may lose, a receiver window at least the sender's excludes the abort |
| OptAbort.AbortExact | lab2-rtp/Lab2-RTP/src/receiver_def.c:318-331 | over such a channel the abort is reachable if and only if the sender's window is the larger, and then also in a run where nothing is lost, copied or reordered |
| OptReordering.AbortExactAnyOrder | lab2-rtp/Lab2-RTP/src/receiver_def.c:318-331 | over a network that loses, copies and reorders the abort is reachable if and only if the sender can be made to send more packets than the receiver's window holds; reordering alone then reaches it |
| OptAbort.StrandedReachable | lab2-rtp/Lab2-RTP/src/receiver_def.c:318-331 | with the larger sender window, losing ACKs alone strands packet 0 |
| OptAbort.CompletionExact | lab2-rtp/Lab2-RTP/src/sender_def.c:300-385 | every reachable state with both ends at work can complete if and only if the receiver's window is at least the sender's, and the sender's is 1 or holds the whole message |
| Nat.CidrMembership | lab3-router/router.cpp:36-55 | an address is in the range of a CIDR block exactly when it agrees with it on the prefix |
| Nat.PoolConserved | lab3-router/router.cpp:106-118 | in every run free and bound addresses partition the range, none free or bound twice |
| Nat.BindFailsWhenAllTaken | lab3-router/router.cpp:221-229 | an unbound host is refused exactly when every address of the range is bound |
| Nat.BindingSticks | lab3-router/router.cpp:219-233 | a bound host keeps its external address until it is released |
| Nat.ReleasedIsNext | lab3-router/router.cpp:110-115 | a released address is unbound and goes to the next host that needs one |
| Nat.HandedOutDownwards | lab3-router/router.cpp:221-229 | a fresh pool hands out its last address first: after k hosts, whatever their packets, the next new one gets last - k, or is refused if there are no more |
| Nat.OutThenIn | lab3-router/router.cpp:203-233 | after any history, an answer to a translated packet is translated back to its host and to no other |
| Router.Directory.LookupExternal | lab3-router/router.cpp:241-248 | finds the first range in key order containing the address, or none contains it |
| Router.RouterObject.constructor | lab3-router/router.cpp:57-78 | port 0 at 0 and all others down, distance 0 to itself and -1 elsewhere, the available range stacked upwards, and the entry in the shared table |
| Router.RouterObject.LeastDistance | lab3-router/router.cpp:170-177 | the loop computes the best offer of the ports from 2 on that are up and know the router, 0x3a3a3a3a if there is none |
| Router.RouterObject.ReleaseNat | lab3-router/router.cpp:106-118 | releases the host's address and keeps the partition |
| Router.RouterObject.ChangePortValue | lab3-router/router.cpp:121-144 | sets the value; if a vector has come in on the port the entry of its sender becomes the best offer; nothing else changes |
| Router.RouterObject.AddHost | lab3-router/router.cpp:147-158 | enters the host in both tables |
| Router.RouterObject.ReceiveDv | lab3-router/router.cpp:160-199 | stores the vector, remembers its sender for the port, makes every other entry of row 0 the best offer, or keeps it if there is none, and broadcasts exactly if row 0 changed |
| Router.RouterObject.ReceiveData | lab3-router/router.cpp:200-266 | inbound translation to the host bound, with its drop; addresses and pool untouched inside; and otherwise as the branches of RoutesData, stated one by one by the lemmas of Translation |
| DistanceVector.VectorIsBestOffer | lab3-router/router.cpp:160-184 | a vector is stored and its sender remembered; every entry of row 0 but the router's own becomes the best offer, or is kept if there is none; nothing else changes |
| DistanceVector.PortChangeIsBestOffer | lab3-router/router.cpp:121-144 | a port command sets the port, whether or not a vector has come in on it; if one has, the entry of its sender becomes the best offer, or is kept; nothing else changes |
| DistanceVector.LastCommandCounts | lab3-router/router.cpp:123-127 | after any vectors and commands each port has the value last commanded for it, or as it was |
| DistanceVector.LastVectorCounts | lab3-router/router.cpp:162-163 | after any vectors and commands the row and the neighbour of a port are those of the last vector on it |
| DistanceVector.CommandUpdatesSender | lab3-router/router.cpp:127-142 | so a command updates the entry of the sender of the last vector on its port |
| DistanceVector.SetupSetsPorts | lab3-router/router.cpp:121-144 | port commands before any vector leave everything but the ports alone |
| DistanceVector.NothingBeforeCommands | lab3-router/router.cpp:71-75 | until a port is commanded a router learns nothing, whatever vectors come in |
| DistanceVector.DownPortIgnored | lab3-router/router.cpp:171-174 | while a port is down, what a vector on it says does not show in row 0 |
| DvNetwork.InitialIsSetUp | lab3-router/router.cpp:71-144 | the networks below start as router_init and one port command per port leave them |
| DvNetwork.EveryDistanceIsReal | lab3-router/router.cpp:162-184 | in every run, vectors lost, copied and reordered: each known entry is the cost of a walk and below the sentinel, and no sum overflows an int |
| DvConvergence.MonotoneRun | lab3-router/router.cpp:166-184 | over order-keeping links known entries never get worse or unknown again |
| DvConvergence.SyncedRun | lab3-router/router.cpp:160-199 | every change is passed on: the last vector sent to a neighbour is the router's own |
| DvConvergence.QuiescentMeansShortest | lab3-router/router.cpp:160-199 | with nothing in flight and every router heard, each entry is the shortest distance, or unknown if that is not below the sentinel |
| DvConvergence.ShortestAfterLosses | lab3-router/router.cpp:92-103 | command '0' repairs losses: whatever vectors were lost, once every router has sent its vector again, nothing is lost since and nothing is in flight, the distances are the shortest |
| DvConvergence.ConvergenceReachable | lab3-router/router.cpp:92-199 | such a continuation exists from every state an order-keeping run reaches |
| DvConvergence.EveryRunDiesOut | lab3-router/router.cpp:179-195 | the number of steps of any order-keeping run is bounded by its topology and its triggers |
| DvRounds.BellmanFord | lab3-router/router.cpp:160-199 | after k rounds each entry is the best walk of at most k links whatever the order in a round, and after n-1 rounds the shortest distance |
| Forwarding.NextHopFound | lab3-router/router.cpp:254-263 | a known destination always has a next hop, whose router knows it at a distance smaller by at least the cost of the port |
| LoopFreedom.ForwardingIsLoopFree | lab3-router/router.cpp:254-263 | in every reachable state of a network without a trap a packet reaches its router within a bounded number of hops, the known distance if ports cost something, while vectors go on being exchanged or lost; no hop leads farther away |
| Traps.CircleMeansTrap | lab3-router/router.cpp:254-263 | a circle of picked ports in any reachable state has the shape of a trap: its longest-informed router learnt the way over a later port, from outside |
| TrapRuns.LoopFreeExact | lab3-router/router.cpp:254-263 | from every state an order-keeping run reaches packets always arrive, if and only if the network has no trap for the destination |
| PortOrder.LoopFreeUnderAnyPorts | lab3-router/router.cpp:254-263 | they arrive under every numbering of the ports if and only if no links of cost 0 form a circle in reach of the destination |
| Forwarding.DataTakesTheHop | lab3-router/router.cpp:236-262 | the data branch sends the packet over that next hop |
| HostJourney.HostReached | lab3-router/router.cpp:236-262 | a packet for a host of router r, handled by the data branch at each router while vectors flow, is always passed on to another router, has been at r after a bounded number of stops if there is no trap, and leaves r by the host's port |
| HostJourney.BorderReached | lab3-router/router.cpp:219-262 | a packet for an external range travels unchanged to the router responsible in the same way, and leaves it by the external port with a bound source, or is dropped exactly when no address is left for that source |
| HostJourney.InboundReached | lab3-router/router.cpp:203-262 | a packet from outside to an address bound to a host of router r goes from the router it comes in at to r in the same way, and leaves r by the host's port, addressed to the host |
| ZeroCost.ZeroCostLoops | lab3-router/router.cpp:254-263 | with a cost of 0 there is a converged network in which a packet circles for ever |
| LocalDelivery.NoInventedPort | lab3-router/router.cpp:236-251 | in every history a router asked to deliver to a host of its own has the host's port |
| Translation.NobodysAddress | lab3-router/router.cpp:252-253 | a packet nobody is responsible for leaves unchanged by port 1 |
| Translation.TowardsRouter | lab3-router/router.cpp:254-266 | a packet for another router leaves unchanged by the first port that leads there at the known distance, or by port 1 if there is none |
| Translation.ToOwnHost | lab3-router/router.cpp:250-251 | a packet for a host of the router's own leaves unchanged by the host's port |
| Translation.TranslatedOut | lab3-router/router.cpp:219-233 | a packet to the external range leaves from the address bound to its source, or from the top of the stack, which is then bound; with none left it is dropped |
| Translation.UnknownFromOutside | lab3-router/router.cpp:203-215 | a packet from outside to an address bound to nobody is dropped and changes nothing |
| Translation.TranslatedIn | lab3-router/router.cpp:203-218 | a packet from outside to a bound address becomes a packet for the host bound to it |
| Translation.AnswerReachesHost | lab3-router/router.cpp:203-251 | in every history of routers, hosts, vectors, commands and packets: what anyone outside sends to the address a host got out with reaches that host, unless it was released in between |
| LocalDelivery.DataDetermined | lab3-router/router.cpp:203-263 | the treatment of a data packet does not depend on the order in which the NAT table is walked |

## Left out

- Sockets, signals, timers and file handles: the timer may fire before any poll and the receive queue may be empty at
  any poll, the input file is a byte sequence, and the output file is the bytes written. A send or receive call that
  fails ends the sender's loop early and is not modelled.
- Connection setup and teardown beyond END: runs start in the data phase, with the ACK of the START packet
  consumed once. A second copy of it would look like an ACK of packet 0.
- Packets that did not come from the other end: the protocols carry genuine packets only, which DamageRejected
  supports.
- Sender.BasicSender.HandleAck: takes an ACK of at most nxt_seq_num, the most the other end can have sent.
- Sender.OptSender.HandleAck: takes an ACK below nxt_seq_num, for the same reason.
- DamageRejected: does not cover damage to the length field, which changes the number of covered bytes, nor damage that
  reaches into the checksum field and beyond it.
- RtpPacket.Packet.Check: takes length fields up to 1461. Above that the program reads past the packet. The layout of
  packets in memory is modelled only as far as the 11 header bytes.
- OptSafe: sequence numbers are unbounded. By OptNoWrapAround this is exact in every run without an overshoot, and
  after one for any run of fewer than 2^31 - 2048 actions; beyond that the 32-bit numbers may wrap round.
- Sender.OptSender.OnTimeout: after an overshoot the program's loop counter is a signed int compared with an unsigned
  count close to 2^32; the model runs the count in full, without the overflow of the counter.
- Text commands and byte order in the router: commands arrive parsed and addresses in host order. The range of
  available addresses ends below 255.255.255.255, and CIDR prefixes have length 1 to 32.
- Port changes after vectors have been exchanged: command '2' recomputes one entry and tells no one, so nothing is
  claimed about the whole network after it, counting to infinity included.
- The learning switch of lab4 and the file transfer of lab1: their state changes one table entry at a time or
  only moves bytes between files and sockets.
