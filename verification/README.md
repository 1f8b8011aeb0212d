# Verified models of the transport lab and of parts of test-pmd

This project models, in Dafny 4.11, the hardest logic of the repository and proves what that
logic is for. `dafny verify dfyconfig.toml` checks all of it.

## What is modelled

**The reliable transport protocol (`rdt/`).** The sender queues messages in a ring of 1000
slots, puts a 4-byte size in front of each, cuts it into payloads of at most 119 bytes and keeps
up to ten unacknowledged packets in a second ring. The receiver holds up to nine early packets in
a ring of its own, reassembles messages and acknowledges cumulatively. The simulator supplies the
two links, one timer and a chain of events. The model has four layers:

- `Bytes`, `Crc`, `Packets`, `Bursts`: the memory layout, the checksum, the 128-byte packet, and
  which changes of a packet its checksum detects.
- `Fragments`: what the wire carries for a sequence of messages, and its inverse, both defined
  without windows, timers or network.
- `SenderSide`, `ReceiverSide`: the two endpoints as classes over their arrays, each method proved
  against a specification over values (`Sender`, `Receiver`).
- `Protocol`: both endpoints over a network that may lose, repeat, delay and reorder anything ever
  sent. `Traces`: the same read off the calls of the handlers. `EventChains`, `Simulation`,
  `SimulatorProgram`: the linked list of events, the timer and the main loop, as objects, refining a
  state machine that refines `Protocol`. `Turns`: what a turn of the loop leaves on the chain, and
  when messages arrive. `LoopExit`: the loop comes to an end.

The results are: safety over every run, also as a statement about the calls alone (`EndToEnd`,
`UpperToUpper`); the invariant that couples the endpoints; the exact meaning of the timer and the
time at which it expires; delivery of everything when the main loop exits; that packets which
arrive in any order are taken (`AnyOrderDelivers`), and so progress by ten packets a round;
conservation of the events on the chain; and that the loop does exit once messages stop arriving and the links bring every packet
across as it is within any fixed time, however much longer than the timeout. Links with
`loss_rate` and `corrupt_rate` zero do that at every `outoforder_rate`: no delay is above 0.2 s
(`rdt/rdt_sim.cc:147`, `rdt/rdt_sim.cc:294-296`, `rdt/rdt_sim.cc:321-323`), so `Expiries` is 1.
Messages arrive one gap after the other until an arrival comes at `sim_time` or later, and the loop
does not exit before (`ArrivalTimes`, `ExitNotBefore`); that the random gaps add up to that time is a
hypothesis of `RunEnds`. `Program.Turn` carries the exit
theorem down to the program over the heap.

**The checksum (`rdt/rdt_check.cc`).** The table loop computes the bit-serial CRC with the
reflected polynomial 0xEDB88320 for every buffer, starting from all ones and without the final
complement of section 8 of RFC 1952. In one buffer, any burst of up to 32 bits changes it. In a
packet the checksum stands in front of the bytes it covers: a burst of up to 32 bits that stays
inside the body or inside the checksum is detected, and so is every burst of up to 27 bits anywhere
(`Bursts`). A burst across the border may pass, and 28 bits can be enough.

**Four pieces of DPDK's test-pmd.** The assignment of streams to cores and of ports and queues to
streams (`Forwarding`), the copy of a packet into a chain of segments with its allocation and
release (`MbufSplit`), and the internet checksum with the echo reply (`InetChecksum`).

## Hypotheses

- A packet whose checksum is right when it arrives was really sent on that link. (Short bursts
  that the checksum detects with certainty are in `Bursts.BurstNoticed`, and
  `Bursts.HeadChangePassesIff` says which changes around the border pass.)
- When a message is submitted fewer than 1000 messages wait. The source counts the waiting
  messages in `msg_buffer_num` and never tests the count.
- `Fits`: message sizes plus 4, and all sequence numbers plus 10, are below 2^31.
- The characters sent in all are below 2^31: `tot_chars_sent` and `tot_chars_delivered` are `int` in
  the source and natural numbers here.
- The host is little-endian and `char` is signed; `int` has 32 bits. Times are reals.
- Bytes of a packet behind its payload are arbitrary.
- Losses, delays and corruption are arbitrary: for each call to a link the environment chooses
  whether the packet is lost, and otherwise which 128 bytes arrive and after which delay.
- `pkt_copy_split` is given a packet of positive length, and the first planned segment fits an
  mbuf of the pool. Behind a first segment that is too small the source goes on to copy.
- There is at least one forwarding core. Port counts are below 256, and below 255 where ports are
  paired: there the 8-bit loop counter of `simple_fwd_config_setup` would wrap around.

## Where the code differs from its documentation, or from what one would expect

- The header has nine bytes. The message sequence byte drawn in `rdt/rdt_sender.cc:8-15` and in
  `rdt/README.md` does not exist.
- The comment at `rdt/rdt_sender.cc:154` says Go-Back N. The sender does resend the whole window,
  but the receiver keeps early packets.
- The checksum of a packet misses some bursts of 28 bits, from bit 7 of the checksum on to bit 2 of
  the body, in every packet (`Unnoticed`). Shorter bursts never pass (`BurstNoticed`).
- The cores' ranges partition the streams exactly when there are no more cores than streams
  (`PartitionIffClamped`); all three callers clamp first.
- The RSS streams cover every queue of every port exactly when the number of pairs is below 65536,
  because the stream number is cast to 16 bits (`RssServesAllIffFits`).
- Echo streams send on the queue number they receive from. With more receive than transmit queues some
  send on a queue that was not configured (`EchoQueuesIff`).
- With an odd number of paired ports, more than one, the simple setup makes two streams send on
  the first port; otherwise no two streams share a port (`SimpleTxPermutesIff`).
- An intact echo request without data, identifier and sequence number gets a reply whose ICMP part
  is all zeros and does not sum to 0xFFFF; every other intact request gets an intact reply
  (`ReplyIntactIff`). Modulo 65535 the sum is right in all cases.
- `pkt_copy_split` puts bytes of one source segment only into each new segment. So a plan that
  covers the packet may still be refused with ENOBUFS when the source has several segments: 60 and
  40 bytes do not go into one segment of 100 (`CoveringPlanMayRefuse`). `FitIffGrouped` says
  exactly which sources fit. A packet in one piece always fits (`OnePieceFitsPlan`).
- It lengthens the last segment in a 16-bit variable. When that wraps around, which takes a packet of
  65536 bytes or more, the packet is refused (`WrappedPlanRefuses`).
- The test called multicast in `icmpecho.c:295-296` matches destination addresses 224.x.y.z only. A
  request to any other multicast address is answered from that multicast address (`SetAddresses`).

## Model

| member | source | states |
|---|---|---|
| Bytes.IntRoundTrip | rdt/rdt_sender.cc:160 | an `int` copied out byte by byte and copied back is the same, negative ones included |
| Bytes.BytesIntIs | rdt/rdt_sender.cc:184 | an `int` that is not negative is read from its four bytes, lowest first |
| Bytes.CopyBytes | rdt/rdt_sender.cc:70 | `memcpy` into an array writes just the given bytes at the given place |
| Crc.CrcAppend | rdt/rdt_check.cc:44-45 | the register after two pieces is that after the second, started from that after the first |
| Crc.CrcInjective | rdt/rdt_check.cc:40-48 | feeding the same bits never makes two different registers equal |
| Crc.CrcIsWordXor | rdt/rdt_check.cc:45 | up to 32 bits fed one by one equal one word xored in and that many shifts |
| Crc.WordInjective | rdt/rdt_check.cc:45 | different bit strings of one length up to 32 are different words |
| Crc.BurstDetected | rdt/rdt_check.cc:40-48 | bit strings that differ only inside some 32 consecutive bits have different checksums |
| Crc.FourByteBurstDetected | rdt/rdt_check.cc:40-48 | buffers that differ only inside four consecutive bytes have different checksums |
| Crc.TableEntry | rdt/rdt_check.cc:6-38 | each of the 256 entries is its index shifted eight times through the bit-serial register |
| Crc.TableStepIsCrc | rdt/rdt_check.cc:45 | one table look-up equals feeding the eight bits of the byte |
| Crc.Crc32 | rdt/rdt_check.cc:40-48 | the table loop returns the bit-serial CRC of the buffer, for every buffer; of four bytes it is zero just for four bytes of ones |
| Crc.CheckValue | rdt/rdt_check.cc:40-48 | of the ASCII digits 1 to 9 it is the complement of 0xCBF43926, the check value known for this checksum |
| Packets.AddChecksum | rdt/rdt_check.cc:50-58 | afterwards the packet verifies and its body is untouched |
| Packets.VerifyChecksum | rdt/rdt_check.cc:60-68 | true exactly when the first four bytes are the CRC of the other 124 |
| Packets.ZerosRefused | rdt/rdt_check.cc:60-68 | a packet of zeros does not verify |
| Packets.CorruptionDetected | rdt/rdt_check.cc:60-68 | a packet that verifies no longer does after a burst of up to 32 bits in its body, or after any change to the checksum field alone |
| Bursts.CrcDifference | rdt/rdt_check.cc:44-45 | the checksums of two bodies that differ in the first 32 bits differ by the shifted difference, whatever follows |
| Bursts.HeadChangePassesIff | rdt/rdt_check.cc:60-68 | after any change of checksum field and first four body bytes a verified packet still verifies if and only if the change of the field is the change of the body, shifted once for each body bit |
| Bursts.ImageIs | rdt/rdt_check.cc:44-45 | what each of the first 12 body bits does to the checksum of a packet |
| Bursts.SourceIs | rdt/rdt_check.cc:44-45 | which change of the first four body bytes flips just one of the last 14 bits of the checksum |
| Bursts.Unnoticed | rdt/rdt_check.cc:60-68 | flipping certain bits among bits 7 to 34 leaves every verified packet verified |
| Bursts.StraddlingDetected | rdt/rdt_check.cc:60-68 | a burst of at most 27 bits across the border of checksum and body never does |
| Bursts.BurstNoticed | rdt/rdt_check.cc:60-68 | a verified packet no longer verifies after a burst of at most 27 bits anywhere, nor after one of at most 32 bits inside the body or inside the checksum |
| Packets.MadeCarries | rdt/rdt_sender.cc:67-72 | for every number and short payload a packet carrying them exists |
| Packets.CarriesMeans | rdt/rdt_sender.cc:67-72 | the number stands in bytes 4 to 7, lowest first, the payload size in byte 8, the payload from byte 9 on |
| Fragments.CutLength | rdt/rdt_sender.cc:65-102 | a message takes ceil((size + 4) / 119) packets |
| Fragments.CutAt | rdt/rdt_sender.cc:65-86 | fragment `i` is the bytes from 119 i up to the next multiple of 119 or the end; just the last one needs no more than 119 |
| Fragments.PayloadAt | rdt/rdt_sender.cc:63-103 | packet numbers run on over all messages: fragment `i` of message `j` comes after all fragments of the messages before |
| Fragments.Locate | rdt/rdt_sender.cc:63-103 | conversely every packet number is some fragment of some message |
| Fragments.FragmentByte | rdt/rdt_sender.cc:65-102 | byte `x` of fragment `i` is byte 119 i + x - 4 of the message; a message takes (size + 4 + 118) / 119 packets |
| Fragments.FragmentSize | rdt/rdt_sender.cc:158-164 | the first four bytes of a message's first fragment are its size, lowest byte first |
| Fragments.AcceptFragment | rdt/rdt_receiver.cc:105-128 | a fragment arriving in its turn stays inside the buffers (no underflow of `payload_size - sizeof(int)`, `cursor` never beyond `size`) and moves reassembly to the next stage |
| Fragments.ReassemblyStep | rdt/rdt_receiver.cc:105-128 | the same for packet `k` of a whole sequence of messages, across message borders |
| Fragments.AcceptAllFrom | rdt/rdt_receiver.cc:103-140 | taking payloads `k` to `n` leads from stage `k` to stage `n` |
| Fragments.RoundTrip | rdt/rdt_receiver.cc:103-128 | reassembling the fragmentation of any messages gives back those messages, with nothing left over |
| Fragments.ReassemblyIsPrefix | rdt/rdt_receiver.cc:108-128 | after any number of packets the delivered messages are a prefix, all of them only after the last packet, and the partial message is a proper prefix of the next one with its true size |
| Fragments.ReassemblyExtends | rdt/rdt_sender.cc:158-164 | messages submitted later do not change what earlier packets reassemble to |
| SenderSide.SubmitKeepsSound | rdt/rdt_sender.cc:158-164 | packets already built remain the first packets of the fragmentation when a message is added |
| SenderSide.AckKeepsSound | rdt/rdt_sender.cc:190-191 | sliding the window keeps at most ten packets unacknowledged |
| SenderSide.CanFill | rdt/rdt_sender.cc:63-103 | from every sound state the window can be filled (the specification is satisfiable) |
| SenderSide.CursorPayload | rdt/rdt_sender.cc:65-102 | where the cursor stands, the next slice of the message is payload `pkt_seq` of the fragmentation, and the moved cursor stands right for the next number: wherever the window limit cuts a message |
| SenderSide.OnTheWire | rdt/rdt_sender.cc:65-102 | every packet built, byte by byte: number, payload size, and the bytes of the message that belong into it |
| SenderSide.SizeOnTheWire | rdt/rdt_sender.cc:160-164 | the first packet of a message carries its size in front, lowest byte first |
| SenderSide.FillPacket | rdt/rdt_sender.cc:67-72 | the packet verifies and carries the number, size and payload, whatever the spare bytes were |
| SenderSide.SenderEndpoint.constructor | rdt/rdt_sender.cc:116-132 | the initial state is the idle sender |
| SenderSide.SenderEndpoint.StorePacket | rdt/rdt_sender.cc:74-78 | packet `pkt_seq` is filed in slot `pkt_seq % 10` and no other unacknowledged packet changes |
| SenderSide.SenderEndpoint.CutFull | rdt/rdt_sender.cc:67-78 | keeps both rings and the cursor in order and adds one packet of the fragmentation |
| SenderSide.SenderEndpoint.CutLast | rdt/rdt_sender.cc:83-101 | the same for the last packet of a message |
| SenderSide.SenderEndpoint.ConstructPkt | rdt/rdt_sender.cc:57-104 | terminates; builds packets until ten are unacknowledged or all messages are cut up, changing none; both rings, `msg_buffer_num` and `pkt_window_num` stay right |
| SenderSide.SenderEndpoint.SendPkt | rdt/rdt_sender.cc:106-113 | passes down exactly the packets from `next_packet_to_send` to `pkt_seq`, as they were built, in order |
| SenderSide.SenderEndpoint.FromUpper | rdt/rdt_sender.cc:152-174 | with the timer set only queues; otherwise starts it, fills the window and sends just the new packets |
| SenderSide.SenderEndpoint.FromLower | rdt/rdt_sender.cc:178-198 | a corrupted or old acknowledgement changes nothing; a fresh one restarts the timer, slides, refills and sends; the timer stops when it was for the last packet |
| SenderSide.SenderEndpoint.Timeout | rdt/rdt_sender.cc:201-207 | restarts the timer, refills the window and sends every unacknowledged packet again, unchanged |
| ReceiverSide.DrainTakesRun | rdt/rdt_receiver.cc:103-140 | from the expected packet the loop takes just the unbroken run of held packets that follows; the later ones stay held |
| ReceiverSide.DrainReassembles | rdt/rdt_receiver.cc:103-140 | reassembly is fed the payloads of that run, in order |
| ReceiverSide.ReceiveGets | rdt/rdt_receiver.cc:79-143 | after an arrival the receiver has, taken or held, just what it had and the packet that arrived if it is intact and fewer than ten numbers ahead; held packets are unchanged; it has taken everything before the first that is missing |
| ReceiverSide.HeldStore | rdt/rdt_receiver.cc:88-93 | in the ring of ten, filing an early packet adds that packet under its number and disturbs no other |
| ReceiverSide.HeldAdvance | rdt/rdt_receiver.cc:130-138 | moving `expected` on by one, with its slot cleared, removes just the packet now expected |
| ReceiverSide.ReceiverEndpoint.constructor | rdt/rdt_receiver.cc:51-63 | the initial state expects packet 0 and holds nothing |
| ReceiverSide.ReceiverEndpoint.Acknowledge | rdt/rdt_receiver.cc:41-48 | the packet sent verifies and carries the number |
| ReceiverSide.ReceiverEndpoint.AcceptPacket | rdt/rdt_receiver.cc:105-128 | `cur_msg` and `cursor` follow one step of reassembly; a completed message goes up, whole |
| ReceiverSide.ReceiverEndpoint.FilePacket | rdt/rdt_receiver.cc:86-93 | an early packet is held under its number unless one is held already; slot `s % 10` represents just packet `s` of the window |
| ReceiverSide.ReceiverEndpoint.NextHeld | rdt/rdt_receiver.cc:130-138 | finds the packet now expected if and only if it is held, and takes it out |
| ReceiverSide.ReceiverEndpoint.TakePacket | rdt/rdt_receiver.cc:103-140 | one turn of the loop keeps the ring and the reassembly state in step with the specification |
| ReceiverSide.ReceiverEndpoint.DrainFrom | rdt/rdt_receiver.cc:103-140 | terminates, since each turn clears a slot; ends with the last taken number equal to `expected - 1`; completed messages go up in order |
| ReceiverSide.ReceiverEndpoint.FromLower | rdt/rdt_receiver.cc:79-143 | corrupted packets change nothing and are not answered; any other is filed, discarded or taken, and answered by one acknowledgement of `expected - 1` |
| Protocol.SubmitKeepsInv | rdt/rdt_sender.cc:152-174 | a submission at any moment keeps the coupling of the endpoints |
| Protocol.AckKeepsInv | rdt/rdt_sender.cc:178-198 | so does any packet arriving at the sender |
| Protocol.ExpireKeepsInv | rdt/rdt_sender.cc:201-207 | so does the expiry of the timer |
| Protocol.DrainInStep | rdt/rdt_receiver.cc:103-140 | the loop never leaves its buffers and ends exactly at the stage of reassembly that `expected` says, not beyond what was built |
| Protocol.ArrivalSafe | rdt/rdt_receiver.cc:79-143 | whatever arrives at the receiver, no buffer is left and no number overflows |
| Protocol.DataKeepsInv | rdt/rdt_receiver.cc:79-143 | any packet arriving at the receiver keeps the coupling |
| Protocol.NextKeepsInv | rdt/rdt_sim.cc:443-512 | every step keeps it |
| Protocol.RunKeepsInv | rdt/rdt_sim.cc:439-513 | every state of every run satisfies it |
| Protocol.Safety | rdt/rdt_receiver.cc:79-143 | in every run, under loss, repetition, delay, reordering and detected corruption, the delivered messages are a prefix of the submitted ones and the partial message is a prefix of the next |
| Protocol.Coupling | rdt/rdt_sender.cc:186-193 | `ack_expected <= expected <= pkt_seq <= ack_expected + 10`; acknowledgements in flight are below `expected`; a packet in flight is the one built under its number, and every packet built has been sent |
| Protocol.DiscardsOnlyDuplicates | rdt/rdt_receiver.cc:97-101 | the branch that discards a verified packet meets only packets taken before |
| Protocol.NextMonotone | rdt/rdt_receiver.cc:94-142 | no step moves the endpoints back, changes a built packet or acknowledges anything but `expected - 1` |
| Protocol.AcksNeverDecrease | rdt/rdt_receiver.cc:142 | of two acknowledgements sent in a run the later is at least the earlier, and each equals `expected - 1` |
| Protocol.NoTimerAllDelivered | rdt/rdt_sender.cc:166-174 | no lost wake-up: without a timer nothing is unacknowledged or waiting, and everything submitted has been delivered |
| Protocol.TimerExact | rdt/rdt_sender.cc:152-207 | in every run the timer is set exactly while some packet of the submitted messages is unacknowledged |
| Protocol.ArrivalAdds | rdt/rdt_receiver.cc:79-143 | the same of every step in which a packet arrives: no packet is lost, none comes from elsewhere |
| Protocol.AnyOrderDelivers | rdt/rdt_receiver.cc:79-143 | in every run, once each packet from `expected` up to a number has arrived, in any order, any number of times and between any other steps, all of them are behind the receiver |
| Protocol.RoundDelivers | rdt/rdt_receiver.cc:79-143 | so the packets of one resent window, arriving in any order, are all behind the receiver, whatever it held before |
| Protocol.RoundProgress | rdt/rdt_sender.cc:178-207 | one expiry, arrival of the window in any order and of the last acknowledgement moves `ack_expected` on by ten, or to the end |
| Protocol.RoundsProgress | rdt/rdt_sender.cc:178-207 | so after `k` rounds ten `k` more packets are acknowledged or all are; then the timer is off and everything is delivered |
| Protocol.CanPlayRound | rdt/rdt_sender.cc:201-207 | from every reachable state with the timer set such a round exists |
| Protocol.CanFinish | rdt/rdt_sender.cc:178-207 | from every reachable state a chain of ceil(remaining / 10) rounds exists that ends with the timer off and everything delivered |
| Traces.SubmitDoes | rdt/rdt_sender.cc:152-174 | with the timer set a submission builds and sends nothing; otherwise it starts the timer, and builds and sends as many packets, in order, as ten unacknowledged ones allow |
| Traces.AckDoes | rdt/rdt_sender.cc:178-198 | only an intact acknowledgement of an unacknowledged packet changes anything: it acknowledges all up to that one, restarts the timer, builds and sends new packets, and stops the timer when nothing is left |
| Traces.ExpireDoes | rdt/rdt_sender.cc:201-207 | the timer is started, the window filled, and every unacknowledged packet sent again, in order |
| Traces.DataDoes | rdt/rdt_receiver.cc:79-143 | a corrupted packet changes nothing and is not answered; any other is answered by just one acknowledgement, the last call, of `expected - 1` |
| Traces.EndToEnd | rdt/rdt_receiver.cc:122-127 | in every run the messages in the calls to the upper layer are, in order and byte for byte, a prefix of the messages submitted, and all of them when the timer is off |
| EventChains.InsertAt | rdt/rdt_sim.cc:59-64 | the position found is where the recursive definition of insertion puts the event |
| EventChains.InsertStable | rdt/rdt_sim.cc:53-65 | the chain stays sorted and the new event comes after all that are not later |
| EventChains.RemoveExact | rdt/rdt_sim.cc:67-74 | cancelling removes exactly that event; the rest keep their order |
| EventChains.EventChain.FindPlace | rdt/rdt_sim.cc:59-61 | the loop stops behind every event that is not later |
| EventChains.EventChain.Schedule | rdt/rdt_sim.cc:55-65 | the linked list becomes the list with the event inserted; an event in the past is dropped |
| EventChains.EventChain.Cancel | rdt/rdt_sim.cc:68-74 | the linked list becomes the list without that event; one that is not on it is ignored |
| EventChains.EventChain.NextEvent | rdt/rdt_sim.cc:77-85 | takes the first event, sets the time to its time, and leaves an empty chain alone |
| Simulation.ScheduleOk | rdt/rdt_sim.cc:55-65 | scheduling keeps the chain sorted, its events distinct and not in the past, and the timer unique |
| Simulation.StopTimerOk | rdt/rdt_sim.cc:256-267 | afterwards no timeout is in the chain |
| Simulation.StartTimerOk | rdt/rdt_sim.cc:236-253 | afterwards exactly one timeout is in the chain, the one `sender_timer` points to, also when the timer ran before |
| Simulation.SenderCallsOk | rdt/rdt_sim.cc:236-300 | any sequence of calls by the sender keeps that; the timer ends as the last of them left it |
| Simulation.ReceiverCallsOk | rdt/rdt_sim.cc:304-348 | calls by the receiver keep it and leave the timer alone |
| Simulation.PopOk | rdt/rdt_sim.cc:481-493 | taking an event keeps it; a timeout taken was the timer's, which is then unset; time does not run backwards |
| Simulation.CountsFollow | rdt/rdt_sim.cc:332-348 | the characters counted in a step are those of the messages submitted and delivered in it |
| Simulation.TurnKeepsInv | rdt/rdt_sim.cc:439-513 | a turn of the main loop keeps chain, timer, protocol and counts in order; time does not run backwards |
| Simulation.RunInv | rdt/rdt_sim.cc:434-513 | so does every run from the first event on |
| Simulation.TimeNeverDecreases | rdt/rdt_sim.cc:77-85 | of two moments of a run the later has no earlier simulated time |
| Simulation.ExitMeansAllDelivered | rdt/rdt_sim.cc:439-529 | when the chain is empty the delivered messages are the submitted ones, byte for byte, and `tot_chars_delivered == tot_chars_sent` |
| Simulation.UndeliveredKeepsTimer | rdt/rdt_sim.cc:440-441 | while something is undelivered a timeout is in the chain, so the loop does not exit |
| Turns.TurnConserves | rdt/rdt_sim.cc:277-327 | a turn takes the first event, at whose time the simulated time then is, and adds one event for each packet not lost, just its delay later, and perhaps the next arrival; all other events but timeouts stay, none is made up |
| Turns.TimeoutFollows | rdt/rdt_sim.cc:236-253 | a submission to an idle sender, an expiry and a fresh acknowledgement set the timeout to 0.3 s later; any other turn leaves it or takes it away |
| Turns.TimerExpiry | rdt/rdt_sim.cc:434-513 | in every run the timer, when set, expires 0.3 s after it was last started |
| Turns.TurnKeeps | rdt/rdt_sim.cc:456-463 | an arrival before the time limit comes back, the same event, after its gap; other events but timeouts stay as they are |
| Turns.ArrivalTimes | rdt/rdt_sim.cc:434-464 | in every run the first message arrives at time 0 and each the gap after the one before, until one has arrived at the time limit or later; then there are no more |
| Turns.ExitNotBefore | rdt/rdt_sim.cc:434-513 | the chain is empty only after an arrival at the time limit or later, at the sum of the gaps |
| Turns.UpperToUpper | rdt/rdt_sim.cc:434-529 | the messages handed up in a run are a prefix of those the arrivals brought, and the same when the chain is empty |
| LoopExit.FirstAcknowledged | rdt/rdt_receiver.cc:97-142 | whenever the first unacknowledged packet arrives, what the receiver then acknowledges includes it |
| LoopExit.ResentAfter | rdt/rdt_sender.cc:201-207 | after an expiry the one timeout is a whole timeout ahead and the first resent packet no more than the time bound of the links |
| LoopExit.PromiseComesFirst | rdt/rdt_sim.cc:440-493 | while the first unacknowledged packet or an acknowledgement of it is due before the timeout, the timeout is not the next event |
| LoopExit.DataTurn | rdt/rdt_sim.cc:495-507 | over prompt links a packet arriving at the receiver leaves less to do and keeps every promise, for each number of expiries ahead, that the first unacknowledged packet is acknowledged by then |
| LoopExit.AckTurn | rdt/rdt_sim.cc:467-479 | an acknowledgement arriving at the sender moves it on, or leaves less to do and keeps every promise |
| LoopExit.TimeoutTurn | rdt/rdt_sim.cc:481-493 | the timer expires only where nothing was promised before it, brings every promise one expiry nearer and makes a new one |
| LoopExit.TurnDecreases | rdt/rdt_sim.cc:439-513 | every turn makes the number of turns still possible smaller |
| LoopExit.LoopEnds | rdt/rdt_sim.cc:439-513 | once no message arrives and every packet gets across within a fixed time D, the number of further turns is at most 24 (e + 2) (unacknowledged packets + 1) and two for each event, where e = floor(2 D / 0.3); whatever was lost or is late before; when the chain is empty everything has been delivered |
| LoopExit.CanRunOut | rdt/rdt_sim.cc:439-513 | from every such state the loop can be run until the chain is empty |
| LoopExit.OneArrivalStays | rdt/rdt_sim.cc:443-464 | a turn leaves at most one arrival on the chain, and none if it was that of an arrival at the time limit or later |
| LoopExit.ArrivalsStop | rdt/rdt_sim.cc:434-464 | so it is in every run from the start |
| LoopExit.RunEnds | rdt/rdt_sim.cc:434-513 | every run has only so many turns more behind the arrival at the time limit or later, if the links then bring every packet across within a fixed time |
| SimulatorProgram.SimCore.Post | rdt/rdt_sim.cc:248-250 | a new event object is on the chain in its place |
| SimulatorProgram.SimCore.StopTimer | rdt/rdt_sim.cc:256-267 | the event pointed to leaves the chain and the pointer is cleared |
| SimulatorProgram.SimCore.StartTimer | rdt/rdt_sim.cc:236-253 | an old timeout leaves the chain; a new one is on it that much later and pointed to (with a negative timeout it is pointed to only) |
| SimulatorProgram.SimCore.IsTimerSet | rdt/rdt_sim.cc:271-274 | true exactly while a timeout event is still on the chain |
| SimulatorProgram.SimCore.ToLowerLayer | rdt/rdt_sim.cc:277-327 | a packet not lost becomes an arrival event at the other side after its delay |
| SimulatorProgram.SimCore.SenderCalls | rdt/rdt_sender.cc:152-207 | performing a handler's calls on the objects does what performing them on values does |
| SimulatorProgram.SimCore.ReceiverCalls | rdt/rdt_receiver.cc:79-143 | the same for the receiver; counts the characters handed up |
| SimulatorProgram.SimCore.Next | rdt/rdt_sim.cc:440-493 | takes the first event; for a timeout the pointer is cleared before the handler runs |
| SimulatorProgram.Program.constructor | rdt/rdt_sim.cc:429-436 | both endpoints idle and one arrival at time 0 |
| SimulatorProgram.Program.OnArrival | rdt/rdt_sim.cc:444-454 | is a submission step of the protocol |
| SimulatorProgram.Program.OnAck | rdt/rdt_sim.cc:467-479 | is an acknowledgement step of the protocol |
| SimulatorProgram.Program.OnTimeout | rdt/rdt_sim.cc:481-493 | is an expiry step of the protocol, with the timer already unset when the handler starts it again |
| SimulatorProgram.Program.OnData | rdt/rdt_sim.cc:495-507 | is a data step of the protocol |
| SimulatorProgram.Program.Recur | rdt/rdt_sim.cc:456-463 | the arrival event itself goes back on the chain while the time is below the limit |
| SimulatorProgram.Program.Turn | rdt/rdt_sim.cc:439-513 | one turn of the loop on the objects is a turn of the state machine and keeps its invariant; it ends exactly when the chain is empty, and then all submitted messages have been delivered and the counts agree |
| Forwarding.PartitionIffClamped | dpdk/app/test-pmd/config.c:1116-1142 | the cores' ranges partition the streams, in order, none empty, sizes differing by at most one, if and only if there are no more cores than streams |
| Forwarding.PartitionCovers | dpdk/app/test-pmd/config.c:1128-1142 | in a partition every stream belongs to some core |
| Forwarding.PartitionDisjoint | dpdk/app/test-pmd/config.c:1128-1142 | and to no other: ranges of different cores do not overlap |
| Forwarding.BlockFits | dpdk/app/test-pmd/config.c:1129-1141 | no cast to the 16-bit stream number loses anything |
| Forwarding.RangesAre | dpdk/app/test-pmd/config.c:1118-1142 | every core gets the quotient of streams by cores, the last ones, as many as the remainder, one more; where each range starts |
| Forwarding.SplitStreams | dpdk/app/test-pmd/config.c:1118-1124 | how many streams each core gets and how many cores get one more |
| Forwarding.SetupEachLcore | dpdk/app/test-pmd/config.c:1105-1143 | both loops write exactly those ranges and touch no other core |
| Forwarding.TxPortPermutes | dpdk/app/test-pmd/config.c:1145-1173 | every topology maps the ports one to one into the ports, also with an odd number of paired ports |
| Forwarding.TxPortIs | dpdk/app/test-pmd/config.c:1154-1172 | paired: the other port of the pair, of an odd last one itself; chained: the next, after the last the first; loop: itself |
| Forwarding.RssRoutesApart | dpdk/app/test-pmd/config.c:1264-1284 | two streams never share a receive queue nor a transmit queue |
| Forwarding.ServesMeans | dpdk/app/test-pmd/config.c:1264-1284 | the fields of every stream by index arithmetic: where it receives, and that it sends on the same queue of the port the topology says |
| Forwarding.PairOfStream | dpdk/app/test-pmd/config.c:1264-1284 | just one stream receives from a given queue of a given port |
| Forwarding.RssServesAllIffFits | dpdk/app/test-pmd/config.c:1252-1284 | every queue of every port is received from by some stream if and only if queues times ports is below 65536 |
| Forwarding.SetupRssStreams | dpdk/app/test-pmd/config.c:1263-1284 | stream `s` serves queue `s % nb_q` of port `s / nb_q`; streams beyond the last are untouched |
| Forwarding.RssFwdConfigSetup | dpdk/app/test-pmd/config.c:1238-1285 | the counts, exactly; a partition of the streams among the cores; all streams set |
| Forwarding.EchoStreams | dpdk/app/test-pmd/config.c:1408-1426 | one core's streams continue where the core before stopped |
| Forwarding.IcmpEchoConfigSetup | dpdk/app/test-pmd/config.c:1374-1428 | the counts, exactly; the partition; every stream set to echo on its own queue although they are visited core by core |
| Forwarding.EchoQueuesIff | dpdk/app/test-pmd/config.c:1405-1420 | all echo streams send on configured transmit queues if and only if there are no more receive than transmit queues |
| Forwarding.SimpleTxPermutesIff | dpdk/app/test-pmd/config.c:1184-1191 | no two streams send on one port, unless an odd number of ports above one is paired |
| Forwarding.SimpleMeans | dpdk/app/test-pmd/config.c:1210-1230 | the fields of every stream by index arithmetic, for each topology, with the first and last of an odd number of paired ports |
| Forwarding.SetupSimpleStreams | dpdk/app/test-pmd/config.c:1210-1230 | the loop leaves each stream on its port's route, the overwritten first one included |
| Forwarding.SimpleFwdConfigSetup | dpdk/app/test-pmd/config.c:1175-1231 | the clamp, the partition of one stream a port among the cores, and the routes |
| MbufSplit.Pool.Alloc | dpdk/app/test-pmd/csumonly.c:579-586 | a fresh empty mbuf, or none when the pool is exhausted |
| MbufSplit.Pool.Free | dpdk/app/test-pmd/csumonly.c:614 | may be called only for an mbuf handed out and not freed since |
| MbufSplit.OnePieceFits | dpdk/app/test-pmd/csumonly.c:497-526 | a packet in one piece fits if and only if the segment lengths add up to its length at least |
| MbufSplit.FitNeedsRoom | dpdk/app/test-pmd/csumonly.c:497-526 | however the source is cut up, it fits only if the segment lengths add up to its length at least |
| MbufSplit.FitIffGrouped | dpdk/app/test-pmd/csumonly.c:497-526 | a source of any segments fits if and only if the new segments can be divided, in order, into one group for each source segment, with room for it |
| MbufSplit.FillNext | dpdk/app/test-pmd/csumonly.c:499-517 | the next segment holds the next bytes of the source, is linked, and the segments before it keep theirs |
| MbufSplit.CopyLoop | dpdk/app/test-pmd/csumonly.c:497-523 | the loop ends with nothing left of the source if and only if the source fits, and then the copied bytes are those of the source |
| MbufSplit.FullOrEnds | dpdk/app/test-pmd/csumonly.c:499-523 | every new segment is full or ends where a source segment ends |
| MbufSplit.OnePieceLengths | dpdk/app/test-pmd/csumonly.c:499-523 | of a packet in one piece every new segment but the last is full, and the last holds the rest |
| MbufSplit.CopySplit | dpdk/app/test-pmd/csumonly.c:478-538 | succeeds if and only if the source fits and its stated length is right; then the chain uses all given segments and has the same bytes, cut up as the lengths say, length and offload data; the source is unchanged |
| MbufSplit.NeededIs | dpdk/app/test-pmd/csumonly.c:563-567 | the number of segments is the first at which the configured lengths reach the packet's length, or all |
| MbufSplit.PlanFallsShort | dpdk/app/test-pmd/csumonly.c:563-577 | without its last segment the plan is too short, so the last segment is always used |
| MbufSplit.PlanIs | dpdk/app/test-pmd/csumonly.c:560-577 | the plan is a prefix of the configured lengths that reaches the packet's length, or all of them with the last one lengthened in 16 bits; unless that wraps around it then adds up to the packet's length |
| MbufSplit.PlanCoversIff | dpdk/app/test-pmd/csumonly.c:562-577 | the plan adds up to the packet's length if and only if the configured lengths do, or the last one can be lengthened to that within 16 bits |
| MbufSplit.OnePieceFitsPlan | dpdk/app/test-pmd/csumonly.c:562-577 | a packet in one piece always fits its plan |
| MbufSplit.WrappedPlanRefuses | dpdk/app/test-pmd/csumonly.c:572-575 | when lengthening the last segment wraps around, the packet is refused, whatever its pieces |
| MbufSplit.CoveringPlanMayRefuse | dpdk/app/test-pmd/csumonly.c:504-526 | a plan of the right length is refused for a source of 60 and 40 bytes |
| MbufSplit.OnePieceSource | dpdk/app/test-pmd/csumonly.c:544-619 | so for a packet in one piece only the pool can be at fault |
| MbufSplit.ChooseSegments | dpdk/app/test-pmd/csumonly.c:562-577 | the loop computes that plan and its 32-bit sum does not overflow |
| MbufSplit.AllocSegments | dpdk/app/test-pmd/csumonly.c:578-597 | completes if and only if the pool has enough mbufs and all but the first segment fit them: a first segment that does not is not noticed; what was allocated is exactly what is returned |
| MbufSplit.FreeSegments | dpdk/app/test-pmd/csumonly.c:613-616 | every one of the segments is freed exactly once |
| MbufSplit.PktCopySplit | dpdk/app/test-pmd/csumonly.c:544-619 | returns a copy if and only if pool and plan allow it, with as many segments as the plan, each filled as far as the source segment and its length allow, and the bytes of the source chain; otherwise NULL and the pool is as before; no mbuf leaks or is freed twice |
| InetChecksum.FoldKeepsOnesSum | dpdk/app/test-pmd/flowgen.c:103-104 | folding the carries keeps the one's complement sum and shrinks what does not fit 16 bits |
| InetChecksum.ComplementIntact | dpdk/app/test-pmd/flowgen.c:106 | a sum and the complement of its one's complement sum together are 0xFFFF |
| InetChecksum.IpSum | dpdk/app/test-pmd/flowgen.c:90-107 | the 32-bit sum never overflows, both loops end, and the result makes the data intact; it is 0xFFFF just for data of zeros |
| InetChecksum.Ipv4HdrCksum | dpdk/app/test-pmd/icmpecho.c:274-293 | two folds suffice; with the result in place the header is intact; the result is never zero |
| InetChecksum.ReplyIntact | dpdk/app/test-pmd/icmpecho.c:507-513 | the reply's word sum is congruent to the request's modulo 65535, for any length |
| InetChecksum.ReplyIntactIff | dpdk/app/test-pmd/icmpecho.c:507-513 | an intact request gives an intact reply if and only if something follows type and checksum |
| InetChecksum.UpdateIcmp | dpdk/app/test-pmd/icmpecho.c:507-513 | the two lemmas hold of the words the code writes: the type is 0, the checksum is that of the request plus 8 in one's complement arithmetic; everything behind them stays |
| InetChecksum.SetAddresses | dpdk/app/test-pmd/icmpecho.c:491-506 | unless the destination starts with the byte 0xE0 the addresses are swapped and the header checksum is not touched; if it does, the source is that of the request with the two lowest bits 2 if they were 1, else 1, and the header is intact; the reply to a unicast host comes from a multicast address exactly for requests to 225.x to 239.x |
| InetChecksum.MakeReply | dpdk/app/test-pmd/icmpecho.c:491-513 | addresses, type and checksums as in the two rows above; if header and ICMP part of the request were right, so are the reply's (the ICMP part modulo 65535, and exactly unless it is all zeros) |

## Left out

- Random numbers, tracing, argument parsing and `printf`; `generate_msg` and the digit pattern that `Receiver_ToUpperLayer` checks (`Safety` is about all bytes).
- The probability of an undetected CRC collision: undetected corruption is excluded by hypothesis in the protocol model.
- Backlogs of 1000 or more messages, where the ring of the sender overwrites messages it still needs.
- `malloc` and `free` of message buffers: `data` of a buffered message is a byte sequence, and use after free or leaks of it are not modelled.
- Handlers return their calls into the simulator in order, and the program then performs them; in the source they call it directly. No handler reads simulator state between its calls, so the order of effects is the same.
- The main loop as one method: it need not terminate under persistent loss, so its turns and runs are modelled, and `LoopExit` says when it does terminate.
- Rates and the actual distribution of delays: a delay is any non-negative real.
- The address of a deleted event being reused by a later one: `Entry.id` numbers allocations.
- SimulatorProgram.SimCore.ToLowerLayer: leaves out `tot_pkts_passed`, which counts the packets not lost and is only printed.
- SenderSide.SenderEndpoint.FromUpper: requires fewer than 1000 waiting messages and sizes that fit, as stated under Hypotheses.
- SimulatorProgram.Program.OnArrival: requires the same.
- Forwarding.TxPortPermutes: leaves out the warning printed for an odd number of paired ports.
- Forwarding.SetupEachLcore: with streams but no core the source divides by zero; a precondition excludes it, and IcmpEchoConfigSetup excludes transmit queues of number zero for the same reason.
- `init_fwd_streams`: the array of streams is given, with at least as many streams as are set up; `retry_enabled` is copied without effect on the properties.
- `dcb_fwd_config_setup` depends on device data.
- MbufSplit.Pool.Free: reference counts and indirect mbufs of the library are not represented; every mbuf has one owner.
- MbufSplit.CopySplit: requires that the segments before the last do not cover the packet; its only caller has cut its plan to that, and `PlanFallsShort` proves it.
- MbufSplit.PktCopySplit: the mbufs of a pool all have the same room; packets of length zero and a first segment larger than that room are excluded as stated under Hypotheses; with random segment counts `lens` is the prefix chosen.
- InetChecksum.MakeReply: leaves out Ethernet addresses, ARP, VLAN tags and the checks that a packet is an echo request.
- InetChecksum.IpSum: an odd last byte is ignored, as the source does; UpdateIcmp sees an odd last byte of the ICMP part as a word padded with zero.
- `lab2`, `lab3/qos.c` and the rest of DPDK: wrappers over libraries and devices that are not part of this model.
