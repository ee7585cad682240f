# Selective-repeat file transfer: model and proofs

The repository sends a file over UDP. The sender (`src/sender.c`) numbers chunks of up to 512 bytes
modulo 256, keeps at most 31 of them unacknowledged and resends on time-outs and acknowledgements.
The receiver (`src/receiver.c`) buffers what comes out of order in a circular list
(`src/buffer/buffer.c`), writes what is due and acknowledges cumulatively. Packets travel in a format
with two CRC-32 checksums (`src/packet/packet.c`). A link simulator (`link_simulator/`) loses, cuts,
corrupts and delays datagrams.

The project models all of it in Dafny. Whatever the C code changes in place is a class whose methods
change it step by step: `Packets.Packet`, `Rings.Ring`, `Receivers.Receiver`, `Senders.Sender`,
`MinQueues.MinQueue`, `LinkSim.Link`. Each method is proved against a function on values (`Wire`,
`RingSpec`, `ReceiverSpec`, `SenderSpec`), and the theorems are about those functions.

## How it fits together

| file | content |
|---|---|
| `Crc32.dfy` | CRC-32 of section 8 of RFC 1952, bit by bit, and why it sees every one-byte change |
| `Wire.dfy`, `WireTheorems.dfy`, `WireLaws.dfy` | the packet format, round trips, rejection of everything the link alters, where each field stands and what is accepted |
| `Packet.dfy` | `struct pkt`, its setters, encoder and decoder |
| `RingSpec.dfy`, `Ring.dfy` | where `buffer_enqueue` puts a packet, and the circular list on the heap |
| `ReceiverSpec.dfy`, `Receiver.dfy` | the receive loop |
| `ReceiverTheorems.dfy`, `ReceiverLaws.dfy` | the order of its buffer, and what one datagram does to it and is answered |
| `SenderSpec.dfy`, `Sender.dfy` | the send loop |
| `SenderLaws.dfy` | what each of its steps does, in terms of packets, time and windows |
| `Protocol.dfy` | sender, link and receiver as one transition system |
| `ProtocolInvariant.dfy`, `ProtocolTheorems.dfy` | what every run keeps |
| `ProtocolLaws.dfy` | what single steps do in every reachable state |
| `ProtocolRuns.dfy`, `ProtocolWitness.dfy` | runs put together step by step: when a transfer can end, when it is stuck, and why the lifetime is needed |
| `MinQueue.dfy`, `LinkSim.dfy` | the delay queue and the link |

In `Protocol`, every datagram carries the absolute index of the chunk it was made from. No program
sees it. The link may deliver any datagram never, late, repeatedly, in any order, cut or with one byte
inverted, on top of any old content of the receive buffer. Since numbers are reused, one hypothesis
about time is needed: when an unaltered DATA packet for chunk `a` arrives, at most 225 chunks more
than `a` were written, and when an unaltered ACK naming chunk `k` arrives, the sender's window starts
at most 225 chunks behind `k` (`LIFETIME`: 256 numbers, a window of 31). Both halves are needed: a
chunk one older can be written in the place of another (`LifetimeIsNeeded`), and an ACK one older can
make the sender take the EOF for acknowledged (`AckLifetimeIsNeeded`). The steps of one round of each
loop may happen in any order, which includes the order of the code.

Two kinds of theorems complete each other. Those about runs say what can never go wrong. The laws
(`WireLaws`, `ReceiverLaws`, `SenderLaws`, `ProtocolLaws`, and the rates in `LinkSim`) say what must
happen: they describe each step by conditions on packets, windows and clocks alone, without the
functions that the methods are proved against. So a receiver that drops what it should store, an
acknowledgement with the wrong window, a sender that ignores that window or never resends, and a link
that loses the wrong datagrams each contradict one of them.

## What the proofs found

* The buffer is not always in the order that `buffer.h` promises. A packet is misplaced exactly when
  the head has not wrapped, everything behind the head has, and the new packet precedes all of those
  (`Overtakes`). Then the receiver holds a chunk it can never write, whatever arrives afterwards
  (`OvertakingIsFatal`), and the transfer is stuck for good (`TransfersCanBeStuck`). All runs keep the
  order if and only if nothing in the file can overtake (`OrderIsKeptIff`); without chunks that
  `pkt_encode` refuses, that means at most 257 chunks (`CanOvertakeIff`). From 258 on, chunks 255, 257
  and 256 arriving in this order are enough.
* `pkt_decode` computes the header checksum over the TR bit as it arrived; the comment in
  `src/packet/packet.h` says the bit counts as 0. A packet that the simulator truncates is thus
  refused, and no NACK is ever sent (`NoNackIsEverSent`).
* The packet that an ACK asks for may not be in the sender's buffer; the code then follows a null
  pointer. In every reachable state the lookup fails exactly when the number is not less than the
  size of the buffer ahead of the oldest number in it (`LookUpFindsIff`); `LookUpCanFail` gets there
  in four steps.
* `nb_sended+1 % MAX_SEQNUM` in `src/sender.c` is `nb_sended + 1`; the model follows the code.
* A non-empty payload whose CRC-32 is 0 is accepted by the decoder and refused by the encoder; the
  four bytes 9D 0A D9 6D are one (`ZeroSumHappens`). A file with such a chunk never gets past it, and a
  transfer can end normally if and only if it has none (`TransferCanCompleteIff`).
* The sender's receive buffer of 10 bytes is too short for exactly one alteration of an ACK
  (`AckStaysInBufferIff`).
* `simulate_link` does not carry microseconds into seconds, so a delayed packet can leave up to a
  second early. `DelayIsKeptIff` says when.
* After the time-out scan a packet that was sent may be marked as never sent, but only when the clock
  reads 0 or 1 (`ScanKeepsSentIff`).

## Model

| member | source | states |
|---|---|---|
| Crc32.StepInjectiveInState | src/packet/packet.c:105 | the CRC-32 step is injective in the register |
| Crc32.StepInjectiveInByte | src/packet/packet.c:105 | and in the byte |
| Crc32.CrcDetectsOneByte | src/packet/packet.c:128-129 | strings of one length that differ in exactly one byte never have the same CRC-32 |
| Crc32.ZeroSumIsZero | src/packet/packet.c:206-214 | the CRC-32 of the bytes 9D 0A D9 6D is 0 |
| WireTheorems.DecodeUndoesEncode | src/packet/packet.c:33-142 | for every valid packet that is encoded, the decoder accepts the bytes, whatever follows them in the buffer, and gives back type, window, length, number, timestamp and payload |
| WireTheorems.EncodeUndoesDecode | src/packet/packet.c:144-219 | whatever was accepted with TR 0 re-encodes to the 10, 12 or 16+length bytes that were consumed, and the encoder accepts it if and only if the payload is empty or has a CRC-32 other than 0 |
| WireTheorems.ZeroSumHappens | src/packet/packet.c:206-214 | a datagram of 20 bytes that the decoder accepts and whose packet the encoder refuses |
| WireTheorems.OneByteReplaced | src/packet/packet.c:97-132 | an encoded packet with any one byte replaced by any other is refused or changes its type, wherever the byte is: header, first checksum, payload or second checksum |
| WireTheorems.AlteredIsRejected | link_simulator/link_sim.c:190-200 | everything the simulator makes of an encoded packet by cutting or inverting is refused or no longer of the packet's type, so the receiver never takes it for DATA |
| WireTheorems.AlteredAckIsNoAck | src/sender.c:311-316 | an altered ACK is refused or taken for DATA, which the sender ignores; it never passes for an ACK or a NACK |
| WireTheorems.AckStaysInBufferIff | src/sender.c:298-311 | decoding an ACK of 10 bytes, altered or not, reads nothing behind them if and only if its first byte was not inverted or the length it then shows exceeds 512 |
| WireLaws.EncodingIs | src/packet/packet.c:144-219 | every byte of an encoded packet by position and weight: the first is 64 type + 32 TR + window, length and checksums have the most significant byte first, the timestamp the least significant, and payload and second checksum follow exactly a DATA packet with data and TR 0 |
| WireLaws.EncodeAcceptsIff | src/packet/packet.c:144-219 | the packets that the encoder accepts, exactly: refused are ACK and NACK with TR, lengths over 528, a length together with TR, and data with a checksum of 0 |
| WireLaws.DecodeAcceptsIff | src/packet/packet.c:33-142 | a buffer is accepted if and only if 10 to 528 bytes are reported and some packet of a known type shows in it, its checksums included |
| WireLaws.DecodeRefuses | src/packet/packet.c:39-132 | which status a refused buffer gets: for the number of bytes first, then type, length field and checksums |
| WireLaws.EarlyRefusalLeaves | src/packet/packet.c:39-79 | what is left in the packet by a wrong number of bytes (its prior content), an unknown type, or a length that is too large (with its bytes swapped) |
| WireLaws.ChecksumRefusalLeaves | src/packet/packet.c:97-132 | what a wrong checksum leaves: the header with TR 0, and the payload exactly when the first checksum was right |
| Packets.Packet.constructor | src/packet/packet.c:15-21 | pkt_new leaves arbitrary fields |
| Packets.Packet.SetType | src/packet/packet.c:271-280 | a type from 1 to 3 is stored, any other refused without a change |
| Packets.Packet.SetTr | src/packet/packet.c:282-291 | the same for a TR bit up to 1 |
| Packets.Packet.SetWindow | src/packet/packet.c:293-302 | the same for a window up to 31 |
| Packets.Packet.SetLength | src/packet/packet.c:310-319 | the same for a length up to 512 |
| Packets.Packet.SetSeqnum | src/packet/packet.c:304-308 | every number is stored |
| Packets.Packet.SetTimestamp | src/packet/packet.c:321-325 | every timestamp is stored |
| Packets.Packet.SetPayload | src/packet/packet.c:339-356 | payload and length are set together, or neither when it is too long |
| Packets.Packet.Encode | src/packet/packet.c:144-219 | status, bytes and reported length for every packet, refused ones included; the length variable is also left alone for a TR packet; no byte behind the packet is touched |
| Packets.Packet.PutPayload | src/packet/packet.c:204-215 | payload and checksum are appended, and a checksum of 0 refused |
| Packets.Packet.ReadLength | src/packet/packet.c:71-79 | a length over 512 is refused and stays in host order |
| Packets.Packet.Decode | src/packet/packet.c:33-142 | status and packet left behind for every buffer that holds what the code reads and for every length, on every error path too, the checksum taken over the bytes as they arrived |
| RingSpec.Find | src/buffer/buffer.c:168-181 | the first position with the number, if there is one |
| RingSpec.PlaceIs | src/buffer/buffer.c:15-64 | on any contents, the place of a packet by its neighbours: everything behind it is passed by the walk, what is in front of it stops the walk, and the head is compared by its bare number |
| RingSpec.WalkOnIsSerial | src/buffer/buffer.c:24-33 | the walk from the head finds the place in serial order |
| RingSpec.WalkBackIsSerial | src/buffer/buffer.c:36-47 | the walk from the tail finds it exactly when the packet does not overtake |
| RingSpec.EnqueueKeepsSerialOrderIff | src/buffer/buffer.c:15-64 | on a ring in serial order whose numbers and the new one lie within 31 consecutive ones, the result is in serial order if and only if the new packet does not overtake |
| RingSpec.OvertakerGoesFirst | src/buffer/buffer.c:37-54 | a packet that overtakes becomes the head |
| Rings.Ring.constructor | src/buffer/buffer.c:4-6 | an empty ring |
| Rings.Ring.WalkFromHead | src/buffer/buffer.c:24-35 | ends at the node behind (or in front of) which the packet goes, on any contents |
| Rings.Ring.WalkFromTail | src/buffer/buffer.c:36-47 | the same for the walk from the tail, which ends at the head at the latest |
| Rings.Ring.Splice | src/buffer/buffer.c:48-59 | four pointer writes link the longer circle, next and prev inverse |
| Rings.Ring.Enqueue | src/buffer/buffer.c:8-67 | inserts exactly one packet at its place and keeps first, last, size and all links, on any contents |
| Rings.Ring.RemoveFirst | src/buffer/buffer.c:69-94 | takes out and returns the head; nothing on an empty ring |
| Rings.Ring.Bridge | src/buffer/buffer.c:119-131 | two pointer writes link the shorter circle |
| Rings.Ring.Remove | src/buffer/buffer.c:96-146 | takes out and returns exactly the first packet with the number, or changes nothing and returns null |
| Rings.Ring.RemoveAcked | src/buffer/buffer.c:148-166 | drops exactly what is in front of the number and counts it; nothing when the number is not there |
| Rings.Ring.GetPkt | src/buffer/buffer.c:168-181 | the first packet with the number, null if none |
| Rings.Ring.LookForUnsent | src/buffer/buffer.c:185-202 | the first packet in the ring whose timestamp is 0, null if none |
| Rings.Ring.Contains | src/buffer/buffer.c:204-217 | true if and only if some packet has the number |
| ReceiverSpec.InWindowIsAhead | src/receiver.c:56-67 | the window test accepts distance 1 to 30, and 31 only across the wrap |
| ReceiverSpec.BufferFitsWindow | src/receiver.c:264 | the buffer never exceeds 31, so the advertised window is in 0..31 and pkt_set_window accepts it |
| ReceiverSpec.EnqueueKeepsSound | src/receiver.c:227-246 | an accepted packet keeps the buffered numbers distinct and at distance 1 to 31 |
| ReceiverSpec.DrainKeepsSound | src/receiver.c:83-102 | so do the writes, and last_writed stays (nb_writed-1) mod 256 |
| ReceiverSpec.OnDatagram | src/receiver.c:206-268 | every datagram, decodable or not, from anyone, keeps the receiver sound |
| ReceiverSpec.RefusedIgnoresPacket | src/receiver.c:203-222 | the arbitrary fields of the new packet never influence the receiver |
| ReceiverTheorems.DrainWritesMaximalRun | src/receiver.c:83-102 | what is written is the longest run of consecutive numbers from the head, each payload once, in order, cut short only where a write fails |
| ReceiverTheorems.OrderedDrainLeavesGap | src/receiver.c:87 | on an ordered buffer the number due next is absent afterwards |
| ReceiverTheorems.EnqueueKeepsOrderIff | src/receiver.c:242 | the receiver's buffer stays in writing order if and only if the stored packet does not overtake |
| ReceiverTheorems.AckNamesLowestMissing | src/receiver.c:260-268 | without overtaking the acknowledgement names the lowest missing chunk |
| ReceiverTheorems.InversionIsPermanent | src/receiver.c:206-258 | no datagram removes an inversion from the buffer or moves the chunk it blocks |
| ReceiverTheorems.OvertakingIsFatal | src/buffer/buffer.c:37-46 | after an overtaking arrival the chunk at the head is never written, whatever arrives |
| ReceiverTheorems.NextIsWritten | src/receiver.c:206-268 | the next chunk that reaches an empty buffer is written and, when an acknowledgement is due, acknowledged |
| ReceiverTheorems.EofIsTaken | src/receiver.c:236-240 | the EOF that arrives when everything was written ends the loop once its acknowledgement is sent |
| ReceiverTheorems.TooOldIsWrittenAsNew | src/receiver.c:58-61 | a chunk 226 chunks old is stored where the numbers wrapped, and written in the place of the chunk 256 later |
| ReceiverLaws.ChunkIsKept | src/receiver.c:229-258 | every chunk at distance 1 to 30 (31 across the wrap) that is not buffered is stored: what is written and what is buffered afterwards are together, each exactly once, what was buffered before and the chunk; what is written are the chunks from nb_writed on, until one is missing or a write fails |
| ReceiverLaws.OthersAreDropped | src/receiver.c:220-258 | nothing else changes the buffer, the output or the time of the last chunk |
| ReceiverLaws.ExpectedMakesProgress | src/receiver.c:242-249 | on a buffer in order, the chunk due next is written, with all that waited for it, and the buffer stays in order |
| ReceiverLaws.EofIsNoted | src/receiver.c:236-240 | an EOF in the window sets lastack_to_send whatever is buffered, and nothing else does |
| ReceiverLaws.AnswerIs | src/receiver.c:232-268 | when a datagram is answered, exactly, and how: an ACK for nb_writed or a NACK for the number that came truncated, with a window that together with the size of the buffer is 31 and the time of the last chunk stored; and what last_acked and the counter become |
| ReceiverLaws.SilenceIsShort | src/receiver.c:260-263 | as long as send succeeds, at most six datagrams in a row are not answered |
| Receivers.Receiver.IsInWindow | src/receiver.c:56-67 | the window test |
| Receivers.Receiver.WriteOne | src/receiver.c:88-99 | one round: the head's payload is written and it is taken out; the next node is the new head, or the removed node itself when the list is empty |
| Receivers.Receiver.WriteBufferToFile | src/receiver.c:83-102 | terminates on every buffer, also when the last node points to itself and is read again after its removal, and has the effect of Drain, a failing write included |
| Receivers.Receiver.SendAck | src/receiver.c:118-158 | the datagram on the wire and last_acked, which changes only for an ACK that was sent; encoding never fails |
| Receivers.Receiver.Judge | src/receiver.c:220-258 | refused, duplicate, outside, truncated, EOF or data; what becomes of each is ReceiverLaws |
| Receivers.Receiver.Keep | src/receiver.c:242-247 | the packet is enqueued and the time recorded |
| Receivers.Receiver.Absorb | src/receiver.c:217-259 | the state before the acknowledgement |
| Receivers.Receiver.Acknowledge | src/receiver.c:232-268 | a NACK or an ACK is sent when ReceiverLaws.AnswerIs says, with that number and window |
| Receivers.Receiver.OnDatagram | src/receiver.c:203-269 | one round of the loop on any bytes implements ReceiverSpec.OnDatagram |
| SenderSpec.ScanSettles | src/sender.c:168-197 | after the time-out scan no packet is overdue at the time at which it was looked at, so with a fixed clock none is overdue; what was not overdue is untouched, and of the rest only timestamps changed (32-bit modular time) |
| SenderSpec.ScanKeepsSentIff | src/sender.c:182-192 | sent packets stay marked as sent if and only if the clock does not read 0 at the first overdue packet nor 1 at a later one |
| SenderSpec.FirstOverdue | src/sender.c:182-188 | the first overdue packet in ring order, if any |
| SenderSpec.RefusedIgnoresPacket | src/sender.c:304-316 | the arbitrary fields of the new packet never influence the sender |
| SenderLaws.ExpiresAfterThree | src/sender.c:182-183 | a packet stamped t expires at t + 3 and later, until the 32-bit clock comes round; one stamped 0 never |
| SenderLaws.AgedExpiresInTwo | src/sender.c:190-192 | an expired packet that is not the first expires again two seconds later |
| SenderLaws.TimeOutSends | src/sender.c:281-291 | the first expired packet is stamped with the time of sending and bytes are sent that decode to it, unless its payload has a checksum of 0; the other expired ones are stamped one second back, nothing else changes; at the fourth time-out of the EOF the sender gives up instead |
| SenderLaws.NothingTimesOut | src/sender.c:281-291 | when no packet has expired nothing is sent or changed |
| SenderLaws.AckResends | src/sender.c:267-272 | a pending ACK number that is found leads to bytes that decode to the first packet with it, and is no longer pending |
| SenderLaws.NackResends | src/sender.c:273-280 | the same for a pending NACK |
| SenderLaws.NothingPending | src/sender.c:267-280 | without a pending number nothing is sent |
| SenderLaws.UnsentIsSent | src/sender.c:292-294 | the first packet stamped 0 is stamped with the time and bytes are sent that decode to it; without one nothing happens |
| SenderLaws.ReadingIs | src/sender.c:252-265 | exactly while the buffer is smaller than the window and no read fails, and until the end was seen, the buffer gets one packet more, with the data read, the next number and the current window; the counters move with every chunk |
| SenderLaws.OthersAreIgnored | src/sender.c:311-323 | what is refused, is DATA, or names a number that cannot have been sent changes nothing |
| SenderLaws.NackIsNoted | src/sender.c:324-327 | a NACK sets the pending number and leaves the window alone |
| SenderLaws.AckIsHeeded | src/sender.c:328-362 | an ACK sets the window to the one it carries, drops exactly the packets in front of the first with its number, stays pending only when it dropped nothing and the EOF was not read, and otherwise ends the loop when it names the EOF |
| Senders.Sender.ReadFile | src/sender.c:77-118 | nothing is read while the window is full; otherwise the packet with the next chunk, or the EOF |
| Senders.Sender.ReadStep | src/sender.c:252-265 | the read step implements SenderSpec.OnRead |
| Senders.Sender.SendPkt | src/sender.c:130-154 | stamps one buffered packet and hands its encoding to send, unless the encoder refuses it |
| Senders.Sender.ResendAcked | src/sender.c:267-272 | resends what a pending ACK names, or reports that the lookup found nothing |
| Senders.Sender.ResendTruncated | src/sender.c:273-280 | the same for a pending NACK |
| Senders.LookForTimedOut | src/sender.c:168-197 | returns the first overdue packet or null and restamps all overdue ones, the clock read anew for each packet |
| Senders.Sender.ResendTimedOut | src/sender.c:281-291 | the time-out step, with the fourth time-out of the EOF ending the loop; what it sends is SenderLaws.TimeOutSends |
| Senders.Sender.SendUnsent | src/sender.c:292-294 | sends the first packet never sent |
| Senders.Sender.DropAcked | src/sender.c:332 | drops the packets in front of the acknowledged number |
| Senders.Sender.OnAck | src/sender.c:298-362 | one acknowledgement of any bytes implements SenderSpec.OnAck, whose effect is SenderLaws.AckIsHeeded |
| ProtocolInvariant.NextGoesLast | src/buffer/buffer.c:21-47 | the number after the tail's is enqueued at the tail, across the wrap too |
| ProtocolInvariant.AppendIsTail | src/sender.c:262 | every chunk that is read is appended at the tail of the sender's buffer |
| ProtocolInvariant.NumberTellsIndex | src/receiver.c:56-67 | within the lifetime a number counts as ahead if and only if its chunk was not yet written, and its distance gives the absolute index |
| ProtocolInvariant.AckedTellsIndex | src/sender.c:332 | within the lifetime a cumulative ACK drops exactly the chunks before the one it names |
| ProtocolInvariant.ArrivesAsSent | src/receiver.c:219-222 | an unaltered datagram brings its chunk, an altered one is refused or no DATA |
| ProtocolInvariant.AckArrivesAsSent | src/sender.c:311-316 | an unaltered ACK names its chunk, an altered one is ignored |
| ProtocolInvariant.ReadKeepsInv | src/sender.c:252-265 | reading keeps the invariant of sender, link and receiver |
| ProtocolInvariant.SendStepKeepsInv | src/sender.c:266-295 | so does every way of sending |
| ProtocolInvariant.ReceivedKeepsInv | src/receiver.c:206-268 | so does every datagram at the receiver |
| ProtocolInvariant.HeardKeepsInv | src/sender.c:297-362 | so does every datagram at the sender |
| ProtocolInvariant.RunKeepsInv | src/sender.c:237-364 | so does every run |
| ProtocolTheorems.OutputIsPrefix | src/receiver.c:83-102 | in every reachable state the output is exactly the first nb_writed chunks of the input |
| ProtocolTheorems.SenderEndIsTruthful | src/sender.c:352-361 | the sender takes the EOF for acknowledged only when the whole input was written |
| ProtocolTheorems.ReceiverEndIsTruthful | src/receiver.c:185 | the receiver leaves its loop through last_acked == lastack_to_send only then, also when send fails, the EOF comes early or numbers wrap |
| ProtocolTheorems.SenderDropsOnlyWritten | src/sender.c:329-332 | the sender's buffer is a window of at most 31 consecutive chunks whose start never passes nb_writed, each with the right content |
| ProtocolTheorems.NoNackIsEverSent | src/receiver.c:232-235 | in every reachable state only ACKs were sent back |
| ProtocolTheorems.NothingPastUnencodable | src/packet/packet.c:209-214 | in no reachable state is a chunk that pkt_encode refuses, or anything behind it, written, and neither end has come to its normal end |
| ProtocolTheorems.LookUpIsWindow | src/buffer/buffer.c:168-181 | the sender finds a number if and only if it is less than the size of the buffer ahead of the oldest, which its counter gives |
| ProtocolTheorems.LookUpFindsIff | src/sender.c:267-270 | in every reachable state this decides the lookup behind the pending ACK, which fails if and only if that ACK names a chunk dropped since or everything that was read |
| ProtocolTheorems.LifetimeIsTight | src/receiver.c:58-65 | a chunk one older than the lifetime passes the window test if and only if the numbers in between wrapped |
| ProtocolTheorems.AckLifetimeIsTight | src/sender.c:328-361 | an ACK one older than the lifetime drops packets if and only if the window is full, and then counts as acknowledging the EOF if that was read |
| ProtocolTheorems.OvertakingIs | src/buffer/buffer.c:36-47 | an arrival that overtakes is one of three chunks around a wrap, all within 31 and none of them refused by pkt_encode, with everything before them written |
| ProtocolTheorems.OrderIsKept | src/buffer/buffer.c:15-64 | when the file has no such three chunks, the receiver's buffer is in writing order in every reachable state |
| ProtocolTheorems.CanOvertakeIff | src/buffer/buffer.c:36-47 | a file without refused chunks has such three if and only if it has at least 258 chunks |
| ProtocolTheorems.ShortFilesStayOrdered | src/buffer/buffer.c:36-47 | with at most 257 chunks the buffer is in writing order in every reachable state |
| ProtocolLaws.ChunkIsTaken | src/receiver.c:229-258 | in every reachable state, a chunk that arrives unaltered, not yet written and less than 30 ahead of nb_writed, is afterwards written or buffered with its bytes |
| ProtocolLaws.EofIsTakenIn | src/receiver.c:236-240 | and an EOF that arrives so, early or not, becomes the number the receiver waits to acknowledge |
| ProtocolLaws.AckTellsReceiver | src/receiver.c:260-268 | whatever the receiver sends back decodes to an ACK that names nb_writed and whose window and the size of its buffer make 31 |
| ProtocolLaws.WindowIsGranted | src/sender.c:329 | in every reachable state the window of the sender is the one carried by the last ACK it took in, 1 before any |
| ProtocolLaws.ReadsWithinWindow | src/sender.c:82 | and a read step adds one packet exactly while the buffer is smaller than that and the end was not read |
| ProtocolLaws.ExpiredIsSentAgain | src/sender.c:281-291 | in every reachable state, the time-out step puts a datagram for the first expired chunk on the way that decodes to it, unless it cannot be encoded or is the EOF for the fourth time |
| ProtocolLaws.NamedIsSentAgain | src/sender.c:267-272 | the same for the chunk that a pending ACK names, as long as it is in the buffer |
| ProtocolWitness.LookUpCanFail | src/sender.c:267-270 | four steps to a state whose lookup finds nothing |
| ProtocolWitness.EveryChunkLetsEnd | src/sender.c:237-364 | a run of 4 steps a chunk and 4 more to the normal end of both ends, for every file whose chunks can be encoded |
| ProtocolWitness.TransferCanCompleteIff | src/packet/packet.c:209-214 | some run leads to the normal end of both ends if and only if pkt_encode refuses no chunk |
| ProtocolWitness.OrderCanBeLost | src/buffer/buffer.c:36-47 | for every file with such three chunks, a run of sender, link and receiver after which the buffer is out of order and blocks the first of them |
| ProtocolWitness.OrderIsKeptIff | src/buffer/buffer.c:15-64 | for every file, all runs keep the buffer in writing order if and only if it has no such three chunks |
| ProtocolWitness.TransfersCanBeStuck | src/receiver.c:83-102 | that run leads to a state from which no run writes the blocked chunk |
| ProtocolWitness.LifetimeIsNeeded | src/receiver.c:58-61 | a run leads to a state in which chunk 0, 226 chunks old, is still under way; if it arrives, its bytes are written in the place of chunk 256 |
| ProtocolWitness.AckLifetimeIsNeeded | src/sender.c:352-361 | a run leads to a state in which 29 chunks are not written and an ACK 226 chunks old makes the sender take the EOF for acknowledged |
| MinQueues.RootIsMinimal | link_simulator/min_queue.c:162-167 | in the heap of this file, with children 2i and 2i+1 from 0, nothing is smaller than the root, for any strict weak order |
| MinQueues.BitLengthIsLogarithmic | link_simulator/min_queue.c:99-110 | the bound on the loops is the logarithm to base 2 |
| MinQueues.SiftUpStep | link_simulator/min_queue.c:104-110 | moving the parent down moves the only fault of the heap one level up |
| MinQueues.SiftDownStep | link_simulator/min_queue.c:143-152 | swapping with the smallest child moves it one level down |
| MinQueues.MinQueue.constructor | link_simulator/min_queue.c:58-73 | an empty queue of 20 slots |
| MinQueues.MinQueue.Grow | link_simulator/min_queue.c:84-98 | a full array is replaced by one of 20 more slots with the same elements |
| MinQueues.MinQueue.Push | link_simulator/min_queue.c:82-114 | keeps the heap, adds exactly the new element, and loops at most as often as the old size has binary digits |
| MinQueues.MinQueue.HasChild | link_simulator/min_queue.c:117-130 | the smallest child, or 0 only when no proper child is smaller |
| MinQueues.MinQueue.Pop | link_simulator/min_queue.c:132-153 | keeps the heap, takes out exactly the root, and loops at most as often as the new size has binary digits; nothing on an empty queue |
| MinQueues.MinQueue.Peek | link_simulator/min_queue.c:155-160 | an element no other is smaller than |
| MinQueues.PushThenPopAll | link_simulator/min_queue.c:82-160 | popping until empty gives back the pushed elements, each as often, in nondecreasing order |
| LinkSim.PktSlotCmpIsStrictWeakOrder | link_simulator/link_sim.c:441-447 | the comparison of slots is a strict weak order, as the queue needs |
| LinkSim.DueOnTimeIff | link_simulator/link_sim.c:106-112 | the comparison is the one of real times for all normalised clocks if and only if the expiration date is normalised |
| LinkSim.DueEarlyByLessThanASecond | link_simulator/link_sim.c:228-230 | a delayed packet is never held too long and leaves less than a second early |
| LinkSim.DelayIsKeptIff | link_simulator/link_sim.c:228-230 | it never leaves early if and only if the microseconds do not carry |
| LinkSim.EqualDelaysKeepOrder | link_simulator/link_sim.c:228-230 | under one delay an earlier packet is due whenever a later one is |
| LinkSim.Link.DeliverDelayed | link_simulator/link_sim.c:151-171 | what is sent leaves in nondecreasing order, was due, is together with the queue the old queue, and no slot left is smaller; it stops when nothing is due or at the first send that fails, and reports failure only for an error that is not worth a retry |
| LinkSim.DeliveredIsWhatWasDue | link_simulator/link_sim.c:155-169 | when nothing due is left, each slot was sent as often as it was queued if it was due, and not at all otherwise |
| LinkSim.OutcomeIsPossible | link_simulator/link_sim.c:184-200 | whatever the random rolls, the link drops a datagram, leaves it, cuts one longer than 12 bytes or inverts one byte inside it |
| LinkSim.LossRate | link_simulator/link_sim.c:57-58 | of the percentages 0 to 100, exactly min(rate, 101) lose a datagram |
| LinkSim.CutRate | link_simulator/link_sim.c:190-194 | of those that leave one longer than 12 bytes, exactly min(rate, 101) cut it; none cuts a shorter one |
| LinkSim.ErrRate | link_simulator/link_sim.c:196-200 | of those that neither lose nor cut it, exactly min(rate, 101) invert a byte |
| LinkSim.EveryByteCanBeInverted | link_simulator/link_sim.c:197-199 | every position can be the inverted one, by exactly the indices congruent to it |
| LinkSim.HigherRates | link_simulator/link_sim.c:184-200 | with higher rates and the same rolls, what was lost stays lost and what was cut is cut or lost |
| LinkSim.SurvivorIs | link_simulator/link_sim.c:184-200 | a datagram is lost if and only if its roll is below the rate, and the bytes that are passed on otherwise are given one by one |
| LinkSim.Link.SimulateLink | link_simulator/link_sim.c:182-244 | nothing changes when the roll is below the loss rate; otherwise exactly the bytes that the rolls for cutting and inverting say are queued with their expiration date, or sent, and nothing else changes |

## Left out

- Sockets, poll, select, address resolution, options, statistics, logging and round-trip times: no state law. Readiness, clocks, random rolls and results of system calls are inputs.
- Liveness: the code does not guarantee delivery, as the results above show. The exits after ten silent seconds or four time-outs of the EOF claim nothing.
- The clock test of `src/receiver.c:260`, which adds milliseconds and microseconds: its outcome is an input.
- malloc failure, free and writes into freed nodes: objects are garbage collected and allocation succeeds.
- Short writes of the output file: a call of write takes the whole payload or fails.
- The input file is fixed, read returns 1 to 512 bytes a call until its end, and goes on returning nothing there.
- A chunk that pkt_encode refuses is freed by send_pkt while it is still buffered; in the model it stays buffered and is not transmitted.
- The host is little-endian, as the copied timestamps and the length that stays after an error show it.
- buffer_free, buffer_print, pkt_del, the getters and predict_header_length: easy members.
- is_in_window of `src/sender.c`, which nothing calls, and the earlier variants under `Inginious`.
- The choice of the delay under jitter, timeval_diff and the select time-out: they only pick a number that is an input here.
- process_incoming_pkt: which datagrams belong to the connection is decided by addresses, which are not part of this model.
- Packets.Packet.Encode: null arguments are not modelled.
- Packets.Packet.Decode: null arguments are not modelled, nor what the code reads behind the end of a buffer too short for the length the packet shows.
- Senders.Sender.OnAck: for the same reason not for 10 bytes that look like DATA of an acceptable length.
- Senders.Sender.ResendAcked: when the lookup finds nothing the model stops with nothing changed, where the code follows a null pointer.
- Rings.Ring.Drop: the null pointers the code stores in a node it is about to free are not modelled.
- LinkSim.Link.SimulateLink: the delay in milliseconds, below 10000, is an input.
